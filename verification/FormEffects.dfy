/**
 What bindings do to a message: errors, written values and untouched leaves of one
 binding after any others, the members of a oneof, and map entries.
 */
module FormEffects {
  import opened Wrappers
  import opened Splitting
  import opened FormBinder

  // --- What a binding changes ---------------------------------------------------

  /** The value at a path, if there is one. */
  function Get(v: Fields, p: seq<Field>): Option<Value>
    requires p != []
    decreases |p|
  {
    if p[0].name !in v then None
    else if |p| == 1 then Some(v[p[0].name])
    else if v[p[0].name].Msg? then Get(v[p[0].name].fields, p[1..])
    else None
  }

  /** The innermost message a path leads into, as it is before the binding. */
  function Innermost(v: Fields, p: seq<Field>): Fields
    requires p != []
    decreases |p|
  {
    if |p| == 1 then v
    else if Child(v, p[0]).Msg? then Innermost(Child(v, p[0]).fields, p[1..])
    else map[]
  }

  function InnermostType(msg: Message, p: seq<Field>): Message
    requires Descends(p)
    decreases |p|
  {
    if |p| == 1 then msg else InnermostType(p[0].kind.message, p[1..])
  }

  /** The message values entered on the way are messages. */
  ghost predicate Enters(v: Fields, p: seq<Field>)
    requires p != []
    decreases |p|
  {
    |p| == 1 || (Child(v, p[0]).Msg? && Enters(Child(v, p[0]).fields, p[1..]))
  }

  /** The field gets its values: singular fields one value, if any, lists all of them at the end. */
  function Written(parse: Parser, before: Option<Value>, fd: Field, values: seq<string>): Option<Value>
    requires values != []
  {
    if fd.card.Repeated? then
      var items := if before.Some? && before.value.List? then before.value.items else [];
      var parsed := ParseAll(parse, fd.kind, values);
      if parsed.Some? then Some(List(items + parsed.value)) else before
    else if values[0] == "" then before
    else ParseField(parse, fd.kind, values[0])
  }

  /** What can stop a binding at a leaf: exactly these, in this order. */
  function LeafError(parse: Parser, msg: Message, v: Fields, fd: Field, values: seq<string>): Option<Error>
    requires values != []
  {
    if fd.oneof.Some? && Taken(msg, v, fd) then Some(OneofTaken(fd.oneof.value))
    else if fd.card.Repeated? then
      if ParseAll(parse, fd.kind, values).None? then Some(ListParseFailed(fd.name)) else None
    else if |values| > 1 then Some(TooManyValues(fd.name))
    else if values[0] != "" && ParseField(parse, fd.kind, values[0]).None? then Some(ParseFailed)
    else None
  }

  lemma LeafStores(parse: Parser, msg: Message, v: Fields, fd: Field, values: seq<string>)
    requires values != [] && !fd.card.Keyed?
    ensures var r := PopulateLeaf(parse, msg, v, fd, "", values);
            && r.error == LeafError(parse, msg, v, fd, values)
            && (r.error.Some? ==> r.message == v)
            && (r.error.None? ==> Get(r.message, [fd]) == Written(parse, Get(v, [fd]), fd, values))
            && (r.error.None? ==> r.message - {fd.name} == v - {fd.name})
  {
    hide ParseAll, ParseField;
    if !(fd.oneof.Some? && Taken(msg, v, fd)) {
      NothingDisplaced(msg, v, fd);
    }
  }

  lemma NothingDisplaced(msg: Message, v: Fields, fd: Field)
    requires !(fd.oneof.Some? && Taken(msg, v, fd))
    ensures Displace(msg, v, fd) == v
  {
    assert forall k | 0 <= k < |msg.fields| :: !(Siblings(fd, msg.fields[k]) && msg.fields[k].name in v);
  }

  /**
   A binding fails exactly as its innermost message says: the oneof check looks at
   that message alone. If it succeeds, the leaf holds what was written.
   */
  lemma {:induction false} StoreWrites(parse: Parser, msg: Message, v: Fields, p: seq<Field>, values: seq<string>)
    requires Descends(p) && values != [] && !p[|p| - 1].card.Keyed? && Enters(v, p)
    ensures var r := Store(parse, msg, v, p, values);
            && r.error == LeafError(parse, InnermostType(msg, p), Innermost(v, p), p[|p| - 1], values)
            && (r.error.None? ==> Get(r.message, p) == Written(parse, Get(v, p), p[|p| - 1], values))
    decreases |p|
  {
    hide PopulateLeaf, LeafError, Written;
    if |p| == 1 {
      LeafStores(parse, msg, v, p[0], values);
      assert p == [p[0]];
    } else {
      var child := Child(v, p[0]).fields;
      StoreWrites(parse, p[0].kind.message, child, p[1..], values);
      EmptyGet(p[1..]);
    }
  }

  lemma EmptyGet(p: seq<Field>)
    requires p != []
    ensures Get(map[], p).None?
  {
  }

  // --- What a leaf is given, value by value -------------------------------------

  /** The binder parses what the generator plans to bind, as the kind it plans, and refuses the rest. */
  lemma ParsedAsPlanned(parse: Parser, kind: Kind, value: string)
    ensures ParseField(parse, kind, value)
         == match Plan(kind) case Unsupported => None case Bindable(k) => parse(k, value)
  {
    hide WellKnown, ParsesMessage;
    if kind.Of? {
      ListsAgree(kind.message.fullName);
    }
  }

  lemma {:induction false} ParseAllIs(parse: Parser, kind: Kind, values: seq<string>)
    ensures ParseAll(parse, kind, values).Some? <==>
              forall i | 0 <= i < |values| :: !Refuses(parse, kind, values[i])
    ensures ParseAll(parse, kind, values).Some? ==>
              var items := ParseAll(parse, kind, values).value;
              && |items| == |values|
              && forall i | 0 <= i < |values| :: Some(items[i]) == ParseField(parse, kind, values[i])
  {
    hide ParseField;
    if values != [] {
      ParseAllIs(parse, kind, values[1..]);
      assert forall i | 0 < i < |values| :: values[i] == values[1..][i - 1];
    }
  }

  /** Another member of the leaf's oneof is set in its message. */
  ghost predicate SiblingSet(holder: Message, inner: Fields, f: Field) {
    exists g | g in holder.fields :: f.oneof.Some? && g.oneof == f.oneof && g.name != f.name && g.name in inner
  }

  lemma TakenIff(holder: Message, inner: Fields, f: Field)
    ensures f.oneof.Some? && Taken(holder, inner, f) <==> SiblingSet(holder, inner, f)
  {
    if f.oneof.Some? && Taken(holder, inner, f) {
      var k :| 0 <= k < |holder.fields| && Siblings(f, holder.fields[k]) && holder.fields[k].name in inner;
      assert holder.fields[k] in holder.fields;
    }
    if SiblingSet(holder, inner, f) {
      var g :| g in holder.fields && f.oneof.Some? && g.oneof == f.oneof && g.name != f.name && g.name in inner;
      var k :| 0 <= k < |holder.fields| && holder.fields[k] == g;
      assert Siblings(f, holder.fields[k]);
    }
  }

  /** A sibling is set, a singular field gets several values, or some value that counts is refused. */
  ghost predicate LeafRefused(parse: Parser, holder: Message, inner: Fields, f: Field, values: seq<string>) {
    || SiblingSet(holder, inner, f)
    || (f.card.Repeated? && exists i | 0 <= i < |values| :: Refuses(parse, f.kind, values[i]))
    || (!f.card.Repeated? && (|values| > 1 || exists i | 0 <= i < |values| ::
                                                values[i] != "" && Refuses(parse, f.kind, values[i])))
  }

  function ItemsOf(value: Option<Value>): seq<Value> {
    if value.Some? && value.value.List? then value.value.items else []
  }

  /**
   What a leaf holds after a binding. A list keeps its items and is followed by what each value
   parses to, in their order; a singular field holds what its value parses to, or, given the empty
   text, what it held.
   */
  ghost predicate LeafHolds(parse: Parser, before: Option<Value>, after: Option<Value>, f: Field, values: seq<string>) {
    if f.card.Repeated? then
      && after.Some? && after.value.List?
      && var was, now := ItemsOf(before), ItemsOf(after);
         && |now| == |was| + |values| && now[..|was|] == was
         && forall i | 0 <= i < |values| :: Some(now[|was| + i]) == ParseField(parse, f.kind, values[i])
    else |values| == 1 && after == if values[0] == "" then before else ParseField(parse, f.kind, values[0])
  }

  lemma LeafErrorIff(parse: Parser, holder: Message, inner: Fields, f: Field, values: seq<string>)
    requires values != []
    ensures LeafError(parse, holder, inner, f, values).Some? <==> LeafRefused(parse, holder, inner, f, values)
  {
    hide ParseAll, ParseField, Taken, SiblingSet;
    TakenIff(holder, inner, f);
    ParseAllIs(parse, f.kind, values);
  }

  lemma WrittenHolds(parse: Parser, holder: Message, inner: Fields, f: Field, before: Option<Value>,
                     values: seq<string>)
    requires values != [] && LeafError(parse, holder, inner, f, values).None?
    ensures LeafHolds(parse, before, Written(parse, before, f, values), f, values)
  {
    hide ParseAll, ParseField, Taken;
    ParseAllIs(parse, f.kind, values);
  }

  /** Two paths that part: at some depth they go through fields of different names. */
  ghost predicate Part(p: seq<Field>, q: seq<Field>)
    decreases |p|
  {
    p != [] && q != [] && (p[0].name != q[0].name || (p[0] == q[0] && Part(p[1..], q[1..])))
  }

  /** Where the paths part, they part between members of one oneof. */
  ghost predicate Displaces(p: seq<Field>, q: seq<Field>)
    requires Part(p, q)
    decreases |p|
  {
    if p[0].name != q[0].name then Siblings(p[0], q[0]) else Displaces(p[1..], q[1..])
  }

  /** The paths' fields are those of the schema. */
  ghost predicate Within(msg: Message, q: seq<Field>)
    decreases |q|
  {
    q != [] && q[0] in msg.fields && (|q| > 1 ==> q[0].kind.Of? && Within(q[0].kind.message, q[1..]))
  }

  lemma UniqueBelow(fs: seq<Field>, f: Field)
    requires Unique(fs) && f in fs && f.kind.Of?
    ensures Unique(f.kind.message.fields)
  {
    var k :| 0 <= k < |fs| && fs[k] == f;
  }

  lemma GetElsewhere(a: Fields, b: Fields, name: string, q: seq<Field>)
    requires a - {name} == b - {name} && q != [] && q[0].name != name
    ensures Get(a, q) == Get(b, q)
  {
    var other := q[0].name;
    assert other in a <==> other in a - {name};
    assert other in b <==> other in b - {name};
    assert other in a ==> a[other] == (a - {name})[other];
    assert other in b ==> b[other] == (b - {name})[other];
  }

  lemma LeafKeeps(parse: Parser, msg: Message, v: Fields, fd: Field, q: seq<Field>, values: seq<string>)
    requires values != [] && !fd.card.Keyed? && q != [] && q[0] in msg.fields && fd.name != q[0].name
    requires PopulateLeaf(parse, msg, v, fd, "", values).error.None?
    ensures Get(PopulateLeaf(parse, msg, v, fd, "", values).message, q)
         == if Siblings(fd, q[0]) then None else Get(v, q)
  {
    hide PopulateLeaf;
    LeafStores(parse, msg, v, fd, values);
    GetElsewhere(PopulateLeaf(parse, msg, v, fd, "", values).message, v, fd.name, q);
    if Siblings(fd, q[0]) {
      var k :| 0 <= k < |msg.fields| && msg.fields[k] == q[0];
      assert q[0].name !in v;
    }
  }

  lemma EnterKeeps(msg: Message, v: Fields, f: Field, value: Value, q: seq<Field>)
    requires Unique(msg.fields) && q != [] && q[0] in msg.fields && f.name != q[0].name
    ensures Get(SetField(msg, v, f, value), q) == if Siblings(f, q[0]) then None else Get(v, q)
  {
    var displaced := set k | 0 <= k < |msg.fields| && Siblings(f, msg.fields[k]) :: msg.fields[k].name;
    var k :| 0 <= k < |msg.fields| && msg.fields[k] == q[0];
    assert forall j | 0 <= j < |msg.fields| && msg.fields[j].name == q[0].name :: j == k;
    assert q[0].name in displaced <==> Siblings(f, q[0]);
  }

  /**
   A successful binding changes nothing at any other path, except that it clears the
   paths it displaces: the other members of a oneof on its way.
   */
  lemma {:induction false} StoreKeeps(parse: Parser, msg: Message, v: Fields, p: seq<Field>, q: seq<Field>,
                                      values: seq<string>)
    requires Descends(p) && values != [] && !p[|p| - 1].card.Keyed?
    requires Within(msg, q) && Unique(msg.fields) && Part(p, q)
    requires Store(parse, msg, v, p, values).error.None?
    ensures Get(Store(parse, msg, v, p, values).message, q) == if Displaces(p, q) then None else Get(v, q)
    decreases |p|
  {
    hide PopulateLeaf, Resolve;
    if |p| == 1 {
      LeafKeeps(parse, msg, v, p[0], q, values);
    } else {
      if p[0].name == q[0].name {
        UniqueBelow(msg.fields, p[0]);
        var child := Child(v, p[0]).fields;
        StoreKeeps(parse, p[0].kind.message, child, p[1..], q[1..], values);
        EmptyGet(q[1..]);
      } else {
        var inner := Msg(Store(parse, p[0].kind.message, Child(v, p[0]).fields, p[1..], values).message);
        assert SetField(msg, v, p[0], Child(v, p[0]))[p[0].name := inner] == SetField(msg, v, p[0], inner);
        EnterKeeps(msg, v, p[0], inner, q);
      }
    }
  }

  // --- Messages that bindings build ---------------------------------------------

  /** Members the walk goes into hold messages, all the way down. */
  ghost predicate Typed(msg: Message, v: Fields)
    decreases msg
  {
    forall k | 0 <= k < |msg.fields| && Traversed(msg.fields[k]) && msg.fields[k].name in v ::
      TypedMember(msg.fields[k], v[msg.fields[k].name])
  }

  ghost predicate TypedMember(f: Field, value: Value)
    requires f.kind.Of?
    decreases f
  {
    value.Msg? && Typed(f.kind.message, value.fields)
  }

  lemma SetKeepsTyped(msg: Message, v: Fields, fd: Field, value: Value)
    requires Typed(msg, v) && Unique(msg.fields) && fd in msg.fields
    requires Traversed(fd) ==> TypedMember(fd, value)
    ensures Typed(msg, SetField(msg, v, fd, value))
  {
    hide Traversed, TypedMember;
    var after := SetField(msg, v, fd, value);
    var i :| 0 <= i < |msg.fields| && msg.fields[i] == fd;
    forall k | 0 <= k < |msg.fields| && Traversed(msg.fields[k]) && msg.fields[k].name in after
      ensures TypedMember(msg.fields[k], after[msg.fields[k].name])
    {
      assert k != i ==> msg.fields[k].name != fd.name;
    }
  }

  lemma ResolvedIsMember(msg: Message, segment: string)
    ensures Resolve(msg, segment).Some? ==> Resolve(msg, segment).value in msg.fields
  {
  }

  lemma LeafKeepsTyped(parse: Parser, msg: Message, v: Fields, fd: Field, segment: string, values: seq<string>)
    requires Typed(msg, v) && Unique(msg.fields) && fd in msg.fields && values != []
    ensures Typed(msg, PopulateLeaf(parse, msg, v, fd, segment, values).message)
    ensures fd.card.Keyed? ==> Typed(msg, PopulateMap(parse, msg, v, fd, segment, values).message)
  {
    hide ParseMapKey, ParseAll, Typed, WellKnown, ParsesMessage, Unique, SetField, Taken, FindName;
    if fd.kind.Of? {
      ListsAgree(fd.kind.message.fullName);
    }
    forall value: Value | !Traversed(fd) ensures Typed(msg, SetField(msg, v, fd, value)) {
      SetKeepsTyped(msg, v, fd, value);
    }
  }

  /** Whatever is bound, and even if it fails, members hold messages. */
  lemma {:induction false} PopulateKeepsTyped(parse: Parser, msg: Message, v: Fields, path: seq<string>,
                                              values: seq<string>)
    requires Typed(msg, v) && Unique(msg.fields)
    ensures Typed(msg, Populate(parse, msg, v, path, values).message)
    decreases |path|
  {
    hide Resolve, PopulateLeaf, PopulateMap, Typed, SetField, WellKnown, Join;
    if path != [] && values != [] && Resolve(msg, path[0]).Some? {
      var fd := Resolve(msg, path[0]).value;
      ResolvedIsMember(msg, path[0]);
      LeafKeepsTyped(parse, msg, v, fd, path[0], values);
      if |path| > 1 {
        if fd.card.Keyed? {
          LeafKeepsTyped(parse, msg, v, fd, path[1], values);
          LeafKeepsTyped(parse, msg, v, fd, Join(path, '.'), values);
        } else if fd.card.Singular? && fd.kind.Of? {
          DescentKeepsTyped(parse, msg, v, fd, path, values);
        }
      }
    }
  }

  lemma ChildTyped(msg: Message, v: Fields, fd: Field)
    requires Typed(msg, v) && fd in msg.fields && Traversed(fd)
    ensures TypedMember(fd, Child(v, fd))
  {
    var k :| 0 <= k < |msg.fields| && msg.fields[k] == fd;
    assert fd.name in v ==> TypedMember(msg.fields[k], v[fd.name]);
    assert Typed(fd.kind.message, map[]);
  }

  lemma {:induction false} DescentKeepsTyped(parse: Parser, msg: Message, v: Fields, fd: Field, path: seq<string>,
                                             values: seq<string>)
    requires Typed(msg, v) && Unique(msg.fields) && values != []
    requires |path| > 1 && Resolve(msg, path[0]) == Some(fd) && fd in msg.fields && fd.card.Singular? && fd.kind.Of?
    ensures Typed(msg, Populate(parse, msg, v, path, values).message)
    decreases |path|, 0
  {
    hide Resolve, Typed, SetField, WellKnown;
    var child := Child(v, fd);
    UniqueBelow(msg.fields, fd);
    if Traversed(fd) {
      ChildTyped(msg, v, fd);
    }
    SetKeepsTyped(msg, v, fd, child);
    if child.Msg? {
      var r := Populate(parse, fd.kind.message, child.fields, path[1..], values);
      if Traversed(fd) {
        PopulateKeepsTyped(parse, fd.kind.message, child.fields, path[1..], values);
      }
      SetKeepsTyped(msg, v, fd, Msg(r.message));
      SetTwice(msg, v, fd, child, Msg(r.message));
    }
  }

  lemma SetTwice(msg: Message, v: Fields, fd: Field, a: Value, b: Value)
    ensures SetField(msg, v, fd, a)[fd.name := b] == SetField(msg, v, fd, b)
  {
  }

  lemma {:induction false} BindKeepsTyped(parse: Parser, msg: Message, v: Fields, pairs: seq<(string, seq<string>)>)
    requires Typed(msg, v) && Unique(msg.fields)
    ensures Typed(msg, BindAll(parse, msg, v, pairs).message)
    decreases |pairs|
  {
    hide Typed, Populate, Split;
    if pairs != [] {
      var r := Populate(parse, msg, v, Split(pairs[0].0, '.'), pairs[0].1);
      PopulateKeepsTyped(parse, msg, v, Split(pairs[0].0, '.'), pairs[0].1);
      if r.error.None? {
        BindKeepsTyped(parse, msg, r.message, pairs[1..]);
      }
    }
  }

  lemma {:induction false} LeafPathFacts(msg: Message, v: Fields, p: seq<Field>)
    requires Typed(msg, v) && IsLeafPath(msg.fields, p)
    ensures Descends(p) && Within(msg, p) && Enters(v, p)
    decreases |p|
  {
    hide WellKnown;
    if |p| > 1 {
      ChildTyped(msg, v, p[0]);
      LeafPathFacts(p[0].kind.message, Child(v, p[0]).fields, p[1..]);
      assert forall k | 1 <= k < |p| :: p[k] == p[1..][k - 1];
    }
  }

  lemma {:induction false} LeafPathsPart(fs: seq<Field>, p: seq<Field>, q: seq<Field>)
    requires Unique(fs) && IsLeafPath(fs, p) && IsLeafPath(fs, q) && p != q
    ensures Part(p, q)
    decreases |p|
  {
    hide WellKnown;
    FindOwn(fs, p[0]);
    FindOwn(fs, q[0]);
    if p[0] == q[0] {
      assert p == [p[0]] + p[1..] && q == [q[0]] + q[1..];
      assert |p| > 1 && |q| > 1;
      UniqueBelow(fs, p[0]);
      LeafPathsPart(p[0].kind.message.fields, p[1..], q[1..]);
    }
  }

  /**
   Binding a planned leaf by its key, whatever was bound before: it fails exactly when a
   sibling of the leaf is set in its message, it has too many values or one is refused, with the
   error its innermost message gives; otherwise the leaf holds its values as stated, and no other
   leaf changes, except for clearing the oneof members it displaces.
   */
  lemma BindLeaf(parse: Parser, msg: Message, earlier: seq<(string, seq<string>)>, p: seq<Field>, q: seq<Field>,
                 segments: seq<string>, values: seq<string>)
    requires Unique(msg.fields) && IsLeafPath(msg.fields, p) && IsLeafPath(msg.fields, q) && p != q
    requires Spells(segments, p) && AllClear(msg.fields, p, segments)
    requires (forall k | 0 <= k < |segments| :: '.' !in segments[k]) && !p[|p| - 1].card.Keyed? && values != []
    ensures Descends(p) && Part(p, q)
    ensures var v := BindAll(parse, msg, map[], earlier).message;
            var r := BindAll(parse, msg, v, [(Join(segments, '.'), values)]);
            && r.error == LeafError(parse, InnermostType(msg, p), Innermost(v, p), p[|p| - 1], values)
            && (r.error.Some? <==> LeafRefused(parse, InnermostType(msg, p), Innermost(v, p), p[|p| - 1], values))
            && (r.error.None? ==> LeafHolds(parse, Get(v, p), Get(r.message, p), p[|p| - 1], values))
            && (r.error.None? ==> Get(r.message, q) == if Displaces(p, q) then None else Get(v, q))
  {
    hide BindAll, Store, LeafError, LeafRefused, LeafHolds, Get, Written, Unique, Typed, IsLeafPath, Displaces;
    hide Spells, AllClear;
    EmptyTyped(msg);
    BindKeepsTyped(parse, msg, map[], earlier);
    var v := BindAll(parse, msg, map[], earlier).message;
    LeafPathFacts(msg, v, p);
    LeafPathFacts(msg, v, q);
    LeafPathsPart(msg.fields, p, q);
    LeafKeyBinds(parse, msg, v, p, segments, values);
    StoreWrites(parse, msg, v, p, values);
    LeafErrorIff(parse, InnermostType(msg, p), Innermost(v, p), p[|p| - 1], values);
    if Store(parse, msg, v, p, values).error.None? {
      WrittenHolds(parse, InnermostType(msg, p), Innermost(v, p), p[|p| - 1], Get(v, p), values);
      StoreKeeps(parse, msg, v, p, q, values);
    }
  }

  lemma EmptyTyped(msg: Message)
    ensures Typed(msg, map[])
  {
  }

  // --- Members of a oneof --------------------------------------------------------

  /** The double-set error looks only at the message the leaf is in. */
  lemma OneofRefusedIff(parse: Parser, msg: Message, v: Fields, p: seq<Field>, values: seq<string>, oneof: string)
    requires Descends(p) && values != [] && !p[|p| - 1].card.Keyed? && Enters(v, p)
    ensures Store(parse, msg, v, p, values).error == Some(OneofTaken(oneof)) <==>
      p[|p| - 1].oneof == Some(oneof) && SiblingSet(InnermostType(msg, p), Innermost(v, p), p[|p| - 1])
  {
    hide Store, Taken, SiblingSet;
    StoreWrites(parse, msg, v, p, values);
    TakenIff(InnermostType(msg, p), Innermost(v, p), p[|p| - 1]);
  }

  /**
   Below a member of a oneof there is no such check: where the generator promises an
   error for a second member, the binding succeeds and the first member is lost.
   */
  lemma OuterOneofIsCleared(parse: Parser, msg: Message, v: Fields, p: seq<Field>, values: seq<string>, sibling: Field)
    requires Descends(p) && |p| > 1 && values != [] && !p[|p| - 1].card.Keyed? && Enters(v, p)
    requires Unique(msg.fields) && sibling in msg.fields && Siblings(p[0], sibling) && sibling.name in v
    requires LeafError(parse, InnermostType(msg, p), Innermost(v, p), p[|p| - 1], values).None?
    ensures Store(parse, msg, v, p, values).error.None?
    ensures Get(Store(parse, msg, v, p, values).message, [sibling]).None?
  {
    hide Store, LeafError, Get, Unique;
    StoreWrites(parse, msg, v, p, values);
    assert Part(p, [sibling]);
    StoreKeeps(parse, msg, v, p, [sibling], values);
  }

  /** Whatever the names: a scalar member is set, then a field below a message member of the same oneof. */
  lemma SecondMemberSlips(parse: Parser, a: Field, b: Field, x: Field, v: Fields, text: string)
    requires a.kind.Plain? && b.card.Singular? && b.kind.Of? && b.kind.message.fields == [x]
    requires x.card.Singular? && x.kind.Plain? && x.oneof.None?
    requires a.name != b.name && a.jsonName != b.jsonName && a.oneof.Some? && a.oneof == b.oneof
    requires a.name in v && b.name !in v && text != "" && parse(x.kind, text).Some?
    ensures var r := Populate(parse, Message("M", [a, b]), v, [b.name, x.name], [text]);
            r.error.None? && Get(r.message, [a]).None?
  {
    hide Populate, Store, Resolve;
    var msg, p, segments := Message("M", [a, b]), [b, x], [b.name, x.name];
    SecondOfTwo(a, b);
    OnlyField(b.kind.message, x);
    assert p[1..] == [x] && segments[1..] == [x.name] && [b] + [x] == p;
    assert Follow(b.kind.message, segments[1..]) == Some([x]);
    assert Follow(msg, segments) == Some(p);
    PopulateIsStore(parse, msg, v, segments, p, [text]);
    assert msg.fields[0] == a && Unique([x]);
    OuterOneofIsCleared(parse, msg, v, p, [text], a);
  }

  /** Two keys, each for a member of one oneof, bind into the empty message without an error: the first is lost. */
  lemma DoubleSetSlips(parse: Parser, text: string)
    requires text != "" && parse(Plain("string"), text).Some?
    ensures var x := Field("x", "x", 1, Singular, Plain("string"), None);
            var a := Field("a", "a", 1, Singular, Plain("string"), Some("o"));
            var b := Field("b", "b", 2, Singular, Of(Message("B", [x])), Some("o"));
            var r := BindAll(parse, Message("M", [a, b]), map[], [("a", [text]), ("b.x", [text])]);
            r.error.None? && Get(r.message, [a]).None?
  {
    hide Populate, Get, BindAll, Split;
    var x := Field("x", "x", 1, Singular, Plain("string"), None);
    var a := Field("a", "a", 1, Singular, Plain("string"), Some("o"));
    var b := Field("b", "b", 2, Singular, Of(Message("B", [x])), Some("o"));
    var msg, v := Message("M", [a, b]), map["a" := parse(Plain("string"), text).value];
    SplitWord("a", '.');
    SplitFirst("b", '.', "x");
    SplitWord("x", '.');
    assert "b" + ['.'] + "x" == "b.x";
    FirstOfTwo(parse, a, b, text);
    SecondMemberSlips(parse, a, b, x, v, text);
    assert Split("a", '.') == ["a"] && Split("b.x", '.') == ["b", "x"];
    assert Populate(parse, msg, map[], Split("a", '.'), [text]) == Bound(v, None);
    TwoKeys(parse, msg, "a", "b.x", [text], v);
  }

  lemma TwoKeys(parse: Parser, msg: Message, first: string, second: string, values: seq<string>, v: Fields)
    requires Populate(parse, msg, map[], Split(first, '.'), values) == Bound(v, None)
    ensures BindAll(parse, msg, map[], [(first, values), (second, values)])
         == Populate(parse, msg, v, Split(second, '.'), values)
  {
    hide Populate, Split;
    var pairs := [(first, values), (second, values)];
    assert pairs[1..] == [(second, values)] && pairs[1..][1..] == [];
    assert BindAll(parse, msg, v, pairs[1..]) == Populate(parse, msg, v, Split(second, '.'), values);
  }

  lemma FirstOfTwo(parse: Parser, a: Field, b: Field, text: string)
    requires a.card.Singular? && a.kind.Plain? && a.name != b.name && text != "" && parse(a.kind, text).Some?
    ensures Populate(parse, Message("M", [a, b]), map[], [a.name], [text])
         == Bound(map[a.name := parse(a.kind, text).value], None)
  {
    assert Resolve(Message("M", [a, b]), a.name) == Some(a);
  }

  lemma SecondOfTwo(a: Field, b: Field)
    requires a.name != b.name
    ensures Resolve(Message("M", [a, b]), b.name) == Some(b)
  {
    assert [a, b][1..] == [b];
    assert FindName([a, b], b.name) == FindName([b], b.name) == Some(b);
  }

  lemma OnlyField(msg: Message, x: Field)
    requires msg.fields == [x]
    ensures Resolve(msg, x.name) == Some(x)
  {
  }

  // --- Map entries and lists ------------------------------------------------------

  lemma {:induction false} FirstIndexIs(before: string, c: char, after: string)
    requires c !in before
    ensures FirstIndex(before + [c] + after, c) == |before|
  {
    var s := before + [c] + after;
    if before != [] {
      assert s[1..] == before[1..] + [c] + after;
      assert before[0] != c;
      FirstIndexIs(before[1..], c, after);
    }
  }

  lemma BracketForm(name: string, key: string)
    requires name != "" && '[' !in name
    ensures ParseMapKey(name + "[" + key + "]") == Some((name, key))
  {
    hide FirstIndex, LastIndex, Split;
    var bracketed := name + "[" + key + "]";
    FirstIndexIs(name, '[', key + "]");
    assert bracketed == name + ['['] + (key + "]");
    LastIndexIs(name + "[" + key, ']');
    assert bracketed[..|name|] == name && bracketed[|name| + 1..|bracketed| - 1] == key;
  }

  lemma DottedForm(name: string, key: string)
    requires name != "" && '.' !in name && '[' !in name && '.' !in key && '[' !in key
    ensures ParseMapKey(name + "." + key) == Some((name, key))
  {
    hide FirstIndex, LastIndex, Split;
    assert '[' !in name + "." + key;
    SplitFirst(name, '.', key);
    SplitWord(key, '.');
  }

  ghost predicate SpellsEntry(text: string, name: string, key: string) {
    && name != "" && '[' !in name
    && (text == name + "[" + key + "]"
        || (text == name + "." + key && '.' !in name && '[' !in key && '.' !in key))
  }

  /** The map key texts are exactly field[key], whatever the key, and field.key with one dot and no bracket. */
  lemma ParseMapKeyIff(text: string, name: string, key: string)
    ensures ParseMapKey(text) == Some((name, key)) <==> SpellsEntry(text, name, key)
  {
    hide FirstIndex, LastIndex, Split;
    if SpellsEntry(text, name, key) {
      if text == name + "[" + key + "]" {
        BracketForm(name, key);
      } else {
        DottedForm(name, key);
      }
    }
    if ParseMapKey(text) == Some((name, key)) {
      var start := FirstIndex(text, '[');
      if start < |text| {
        assert text == text[..start] + "[" + text[start + 1..|text| - 1] + "]";
      } else {
        var parts := Split(text, '.');
        JoinSplit(text, '.');
        assert parts[1..] == [parts[1]] && Join(parts, '.') == parts[0] + ['.'] + parts[1];
        assert parts[0] in parts && parts[1] in parts && text[..start] == text;
      }
    }
  }

  lemma LastIndexIs(before: string, c: char)
    ensures LastIndex(before + [c], c) == Some(|before|)
  {
  }

  function EntryOf(v: Fields, f: Field, k: MapKey): Option<Value> {
    if f.name in v && v[f.name].Map? && k in v[f.name].entries then Some(v[f.name].entries[k]) else None
  }

  /**
   Binding a map entry writes the last of its values under its parsed key and leaves
   the other entries and fields alone; if key or value do not parse, or the key is of
   no key type, nothing changes.
   */
  lemma MapEntryIsWritten(parse: Parser, msg: Message, v: Fields, f: Field, text: string, name: string, key: string,
                          values: seq<string>, kf: Field, vf: Field)
    requires f.kind.Of? && f.oneof.None? && values != [] && SpellsEntry(text, name, key)
    requires FindName(f.kind.message.fields, "key") == Some(kf) && FindName(f.kind.message.fields, "value") == Some(vf)
    ensures var r := PopulateMap(parse, msg, v, f, text, values);
            var k, x := ParseField(parse, kf.kind, key), ParseField(parse, vf.kind, values[|values| - 1]);
            && (r.error.None? <==> k.Some? && k.value.Basic? && x.Some?)
            && (r.error.Some? ==> r.message == v)
            && (r.error.None? ==>
                  && EntryOf(r.message, f, k.value.key) == x
                  && (forall other | other != k.value.key :: EntryOf(r.message, f, other) == EntryOf(v, f, other))
                  && r.message - {f.name} == v - {f.name})
  {
    hide ParseMapKey, ParseField, FindName;
    ParseMapKeyIff(text, name, key);
    NothingDisplaced(msg, v, f);
  }

  /** A list may be named with a trailing pair of brackets, unless a field has that very name. */
  lemma ListSuffixIsDropped(msg: Message, f: Field)
    requires Unique(msg.fields) && f in msg.fields && f.name != ""
    requires Lookup(msg, f.name + "[]").None? && msg.fullName != STRUCT
    ensures Resolve(msg, f.name + "[]") == Some(f)
  {
    hide Lookup, Unique;
    var segment := f.name + "[]";
    assert segment[|segment| - 2..] == "[]" && segment[..|segment| - 2] == f.name;
    LookupOwn(msg, f);
  }

  lemma LookupOwn(msg: Message, f: Field)
    requires Unique(msg.fields) && f in msg.fields
    ensures Lookup(msg, f.name) == Some(f) && Resolve(msg, f.name) == Some(f)
  {
    FindOwn(msg.fields, f);
  }
}
