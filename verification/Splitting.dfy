/**
 Splitting a sequence on a separator and joining the pieces again: Rust's
 `str::split` on one character, used on route paths ('/'), form keys ('.')
 and STOMP header blocks (line feed).
 */
module Splitting {

  function Split<T(==)>(s: seq<T>, sep: T): (parts: seq<seq<T>>)
    ensures |parts| >= 1
    ensures forall p | p in parts :: sep !in p
  {
    if s == [] then [[]]
    else if s[0] == sep then [[]] + Split(s[1..], sep)
    else
      var rest := Split(s[1..], sep);
      [[s[0]] + rest[0]] + rest[1..]
  }

  function Join<T>(parts: seq<seq<T>>, sep: T): seq<T>
    requires |parts| >= 1
  {
    if |parts| == 1 then parts[0] else parts[0] + [sep] + Join(parts[1..], sep)
  }

  lemma {:induction false} SplitFirst<T>(word: seq<T>, sep: T, rest: seq<T>)
    requires sep !in word
    ensures Split(word + [sep] + rest, sep) == [word] + Split(rest, sep)
  {
    var s := word + [sep] + rest;
    if word == [] {
      assert s[1..] == rest;
    } else {
      assert s[1..] == word[1..] + [sep] + rest;
      assert s[0] == word[0] != sep;
      SplitFirst(word[1..], sep, rest);
      assert [word[0]] + word[1..] == word;
    }
  }

  lemma {:induction false} SplitWord<T>(word: seq<T>, sep: T)
    requires sep !in word
    ensures Split(word, sep) == [word]
  {
    if word != [] {
      assert word[0] != sep;
      SplitWord(word[1..], sep);
      assert [word[0]] + word[1..] == word;
    }
  }

  /** Splitting undoes joining when no piece contains the separator. */
  lemma {:induction false} SplitJoin<T>(parts: seq<seq<T>>, sep: T)
    requires |parts| >= 1
    requires forall p | p in parts :: sep !in p
    ensures Split(Join(parts, sep), sep) == parts
  {
    if |parts| == 1 {
      SplitWord(parts[0], sep);
    } else {
      SplitJoin(parts[1..], sep);
      SplitFirst(parts[0], sep, Join(parts[1..], sep));
    }
  }

  /** Joining undoes splitting, on every sequence. */
  lemma {:induction false} JoinSplit<T>(s: seq<T>, sep: T)
    ensures Join(Split(s, sep), sep) == s
  {
    if s != [] {
      JoinSplit(s[1..], sep);
      var rest := Split(s[1..], sep);
      if s[0] != sep && |rest| > 1 {
        assert ([[s[0]] + rest[0]] + rest[1..])[1..] == rest[1..];
      } else if s[0] == sep {
        assert ([[]] + rest)[1..] == rest;
      }
    }
  }
}
