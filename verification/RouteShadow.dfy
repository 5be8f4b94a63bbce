/**
 The route generator's shadow analysis. The reference mux answers with the
 first registered route whose pattern matches; the generated mounts skip every
 route an earlier same-verb pattern subsumes, because the target router
 prefers static segments instead of registration order.
 */
module RouteShadow {
  import opened Wrappers
  import opened Splitting

  datatype Route = Route(verb: string, path: string)

  datatype Request = Request(verb: string, path: string)

  function Segments(path: string): (parts: seq<string>)
    ensures |parts| >= 1 && forall p | p in parts :: '/' !in p
  {
    Split(path, '/')
  }

  predicate IsVar(segment: string) {
    |segment| > 0 && segment[0] == '{'
  }

  predicate PatternMatches(pattern: seq<string>, path: seq<string>) {
    && |pattern| == |path|
    && forall k | 0 <= k < |pattern| :: IsVar(pattern[k]) || pattern[k] == path[k]
  }

  /** The route's pattern matches the request's path, whatever the verbs. */
  predicate OnPath(route: Route, request: Request) {
    PatternMatches(Segments(route.path), Segments(request.path))
  }

  predicate Accepts(route: Route, request: Request) {
    route.verb == request.verb && OnPath(route, request)
  }

  /** Route a answers at least the requests route b answers. */
  predicate Subsumes(a: Route, b: Route) {
    a.verb == b.verb && PatternMatches(Segments(a.path), Segments(b.path))
  }

  ghost predicate Shadowed(routes: seq<Route>, i: nat)
    requires i < |routes|
  {
    exists j | 0 <= j < i :: Subsumes(routes[j], routes[i])
  }

  ghost predicate FlagsExact(routes: seq<Route>, flags: seq<bool>) {
    |flags| == |routes| && forall i | 0 <= i < |routes| :: flags[i] <==> Shadowed(routes, i)
  }

  /** Flags every route that an earlier same-verb pattern subsumes. */
  method ShadowFlags(routes: seq<Route>) returns (flags: seq<bool>)
    ensures FlagsExact(routes, flags)
  {
    var marks := new bool[|routes|](_ => false);
    for i := 0 to |routes|
      invariant forall m | 0 <= m < i :: marks[m] <==> Shadowed(routes, m)
      invariant forall m | i <= m < |routes| :: !marks[m]
    {
      for j := 0 to i
        invariant forall m | 0 <= m < i :: marks[m] <==> Shadowed(routes, m)
        invariant forall m | i <= m < |routes| :: !marks[m]
        invariant forall m | 0 <= m < j :: !Subsumes(routes[m], routes[i])
      {
        if routes[j].verb != routes[i].verb {
          continue;
        }
        if PatternMatches(Segments(routes[j].path), Segments(routes[i].path)) {
          assert Subsumes(routes[j], routes[i]);
          marks[i] := true;
          break;
        }
      }
    }
    flags := marks[..];
  }

  /** The mount loop's skip: the routes whose flag is clear, in order. */
  function Mounted(routes: seq<Route>, flags: seq<bool>): seq<Route>
    requires |flags| == |routes|
  {
    if routes == [] then []
    else
      var n := |routes| - 1;
      Mounted(routes[..n], flags[..n]) + if flags[n] then [] else [routes[n]]
  }

  /** The first-match mux: the index of the earliest route that accepts. */
  function FirstMatch(routes: seq<Route>, request: Request): (found: Option<nat>)
    ensures found.Some? ==> found.value < |routes| && Accepts(routes[found.value], request)
    ensures found.Some? ==> forall j | 0 <= j < found.value :: !Accepts(routes[j], request)
    ensures found.None? ==> forall j | 0 <= j < |routes| :: !Accepts(routes[j], request)
  {
    if routes == [] then None
    else
      var n := |routes| - 1;
      var earlier := FirstMatch(routes[..n], request);
      if earlier.Some? then earlier
      else if Accepts(routes[n], request) then Some(n) else None
  }

  /** The route a first-match mux hands the request to. */
  function Dispatch(routes: seq<Route>, request: Request): Option<Route> {
    match FirstMatch(routes, request)
    case None => None
    case Some(i) => Some(routes[i])
  }

  /** Pattern matching is inclusion of the requests answered. */
  lemma SubsumesIsInclusion(a: Route, b: Route, request: Request)
    requires Subsumes(a, b) && Accepts(b, request)
    ensures Accepts(a, request)
  {
    var p, q, s := Segments(a.path), Segments(b.path), Segments(request.path);
    forall k | 0 <= k < |p| ensures IsVar(p[k]) || p[k] == s[k] {
      if !IsVar(p[k]) {
        assert p[k] == q[k];
      }
    }
  }

  lemma DispatchLast(routes: seq<Route>, last: Route, request: Request)
    ensures Dispatch(routes + [last], request)
            == if Dispatch(routes, request).Some? then Dispatch(routes, request)
               else if Accepts(last, request) then Some(last) else None
  {
    hide Accepts;
    var n := |routes|;
    assert (routes + [last])[..n] == routes;
  }

  lemma FlagsPrefix(routes: seq<Route>, flags: seq<bool>, n: nat)
    requires FlagsExact(routes, flags) && n <= |routes|
    ensures FlagsExact(routes[..n], flags[..n])
  {
    hide Subsumes;
    forall i | 0 <= i < n ensures flags[..n][i] <==> Shadowed(routes[..n], i) {
      assert forall j | 0 <= j < i :: routes[..n][j] == routes[j];
      assert flags[i] <==> Shadowed(routes, i);
    }
  }

  /** Skipping the flagged routes changes no answer of the first-match mux. */
  lemma {:induction false} ShadowRemovalIsExact(routes: seq<Route>, flags: seq<bool>, request: Request)
    requires FlagsExact(routes, flags)
    ensures Dispatch(Mounted(routes, flags), request) == Dispatch(routes, request)
  {
    hide Accepts, Subsumes, FirstMatch, Segments;
    if routes != [] {
      var n := |routes| - 1;
      var init, last := routes[..n], routes[n];
      FlagsPrefix(routes, flags, n);
      ShadowRemovalIsExact(init, flags[..n], request);
      assert routes == init + [last];
      DispatchLast(init, last, request);
      DispatchLast(Mounted(init, flags[..n]), last, request);
      assert Mounted(init, flags[..n]) + [] == Mounted(init, flags[..n]);
      if flags[n] && Accepts(last, request) {
        var j :| 0 <= j < n && Subsumes(routes[j], last);
        SubsumesIsInclusion(routes[j], last, request);
        assert Accepts(init[j], request);
      }
    }
  }

  // --- What patterns say ----------------------------------------------------

  lemma PieceWithin(s: string, piece: string)
    requires piece in Split(s, '/') && '{' !in s
    ensures '{' !in piece
    decreases |s|
  {
    if s != [] && s[0] != '/' {
      var rest := Split(s[1..], '/');
      if piece == [s[0]] + rest[0] {
        assert rest[0] in rest;
        PieceWithin(s[1..], rest[0]);
      } else {
        assert piece in rest;
        PieceWithin(s[1..], piece);
      }
    } else if s != [] && piece != [] {
      PieceWithin(s[1..], piece);
    }
  }

  /** A pattern without a brace answers its own path and no other. */
  lemma LiteralPattern(route: Route, request: Request)
    requires '{' !in route.path
    ensures OnPath(route, request) <==> request.path == route.path
  {
    var p, s := Segments(route.path), Segments(request.path);
    forall k | 0 <= k < |p| ensures !IsVar(p[k]) {
      assert p[k] in p;
      PieceWithin(route.path, p[k]);
    }
    if OnPath(route, request) {
      assert p == s;
      JoinSplit(route.path, '/');
      JoinSplit(request.path, '/');
    }
  }

  lemma {:induction false} SplitLast(front: string, word: string)
    requires '/' !in word
    ensures Split(front + ['/'] + word, '/') == Split(front, '/') + [word]
  {
    var s := front + ['/'] + word;
    if front == [] {
      assert s[1..] == word;
      SplitWord(word, '/');
    } else {
      assert s[1..] == front[1..] + ['/'] + word;
      SplitLast(front[1..], word);
    }
  }

  /** A variable at the end of a path takes any text without a slash there, and nothing else. */
  lemma VariablePattern(verb: string, front: string, name: string, path: string)
    requires '{' !in front && '/' !in name
    ensures OnPath(Route(verb, front + "/{" + name + "}"), Request(verb, path)) <==>
              exists text :: '/' !in text && path == front + "/" + text
  {
    var variable := "{" + name + "}";
    var route, request := Route(verb, front + "/{" + name + "}"), Request(verb, path);
    assert route.path == front + ['/'] + variable;
    SplitLast(front, variable);
    var p, s := Segments(route.path), Segments(path);
    var n := |p| - 1;
    assert p[n] == variable && IsVar(p[n]);
    forall k | 0 <= k < n ensures !IsVar(p[k]) {
      assert p[k] == Split(front, '/')[k];
      PieceWithin(front, p[k]);
    }
    if OnPath(route, request) {
      assert s == s[..n] + [s[n]] && s[..n] == Split(front, '/') && s[n] in s;
      JoinSplit(front, '/');
      JoinSplit(path, '/');
      JoinLast(s[..n], s[n]);
      assert path == front + "/" + s[n];
    }
    forall text | '/' !in text && path == front + "/" + text ensures OnPath(route, request) {
      SplitLast(front, text);
    }
  }

  lemma {:induction false} JoinLast(parts: seq<string>, word: string)
    requires |parts| >= 1
    ensures Join(parts + [word], '/') == Join(parts, '/') + ['/'] + word
  {
    if |parts| > 1 {
      JoinLast(parts[1..], word);
      assert (parts + [word])[1..] == parts[1..] + [word];
    } else {
      assert (parts + [word])[1..] == [word];
    }
  }

  // --- Witness requests -----------------------------------------------------

  function TotalLength(routes: seq<Route>): nat {
    if routes == [] then 0 else |routes[0].path| + TotalLength(routes[1..])
  }

  /** A path segment longer than every segment of the table. */
  function FreshSegment(routes: seq<Route>): string {
    seq(TotalLength(routes) + 1, _ => 'x')
  }

  lemma {:induction false} SplitPieceLength(s: string, piece: string)
    requires piece in Segments(s)
    ensures |piece| <= |s|
  {
    if s != [] {
      var rest := Segments(s[1..]);
      if piece in rest {
        SplitPieceLength(s[1..], piece);
      } else {
        SplitPieceLength(s[1..], rest[0]);
      }
    }
  }

  lemma {:induction false} PathLength(routes: seq<Route>, i: nat)
    requires i < |routes|
    ensures |routes[i].path| <= TotalLength(routes)
  {
    if i > 0 {
      PathLength(routes[1..], i - 1);
    }
  }

  lemma FreshIsFresh(routes: seq<Route>, i: nat, k: nat)
    requires i < |routes| && k < |Segments(routes[i].path)|
    ensures Segments(routes[i].path)[k] != FreshSegment(routes)
  {
    SplitPieceLength(routes[i].path, Segments(routes[i].path)[k]);
    PathLength(routes, i);
  }

  /** A pattern with every variable replaced by the fresh segment. */
  function Fill(pattern: seq<string>, filler: string): seq<string> {
    seq(|pattern|, k requires 0 <= k < |pattern| => if IsVar(pattern[k]) then filler else pattern[k])
  }

  function Witness(routes: seq<Route>, verb: string, pattern: seq<string>): Request
    requires |pattern| >= 1
  {
    Request(verb, Join(Fill(pattern, FreshSegment(routes)), '/'))
  }

  /** A pattern matches the witness of another exactly when it matches that pattern. */
  lemma WitnessMatched(routes: seq<Route>, h: nat, verb: string, pattern: seq<string>)
    requires h < |routes| && |pattern| >= 1 && forall p | p in pattern :: '/' !in p
    ensures OnPath(routes[h], Witness(routes, verb, pattern)) <==> PatternMatches(Segments(routes[h].path), pattern)
  {
    var filler := FreshSegment(routes);
    var filled := Fill(pattern, filler);
    SplitJoin(filled, '/');
    var p := Segments(routes[h].path);
    forall k | 0 <= k < |p| && |p| == |pattern|
      ensures (IsVar(p[k]) || p[k] == filled[k]) <==> (IsVar(p[k]) || p[k] == pattern[k])
    {
      FreshIsFresh(routes, h, k);
    }
  }

  /** A route accepts the witness of a pattern exactly when it subsumes the pattern. */
  lemma WitnessAccepted(routes: seq<Route>, h: nat, verb: string, pattern: seq<string>)
    requires h < |routes| && |pattern| >= 1 && forall p | p in pattern :: '/' !in p
    ensures Accepts(routes[h], Witness(routes, verb, pattern))
            <==> routes[h].verb == verb && PatternMatches(Segments(routes[h].path), pattern)
  {
    hide PatternMatches, Segments;
    WitnessMatched(routes, h, verb, pattern);
  }

  lemma FirstMatchIs(routes: seq<Route>, request: Request, i: nat)
    requires i < |routes| && Accepts(routes[i], request)
    requires forall j | 0 <= j < i :: !Accepts(routes[j], request)
    ensures FirstMatch(routes, request) == Some(i)
  {
    hide FirstMatch, Accepts;
  }

  lemma UnshadowedIsReached(routes: seq<Route>, i: nat)
    requires i < |routes| && !Shadowed(routes, i)
    ensures FirstMatch(routes, Witness(routes, routes[i].verb, Segments(routes[i].path))) == Some(i)
  {
    hide Witness, Accepts, PatternMatches, FirstMatch, Segments;
    var pattern := Segments(routes[i].path);
    var request := Witness(routes, routes[i].verb, pattern);
    MatchesItself(pattern);
    WitnessAccepted(routes, i, routes[i].verb, pattern);
    forall j | 0 <= j < i ensures !Accepts(routes[j], request) {
      WitnessAccepted(routes, j, routes[i].verb, pattern);
      assert !Subsumes(routes[j], routes[i]);
    }
    FirstMatchIs(routes, request, i);
  }

  lemma MatchesItself(pattern: seq<string>)
    ensures PatternMatches(pattern, pattern)
  {
  }

  /** A flag means unreachable and nothing else. */
  lemma ShadowedIffUnreachable(routes: seq<Route>, i: nat)
    requires i < |routes|
    ensures Shadowed(routes, i) <==> forall request :: FirstMatch(routes, request) != Some(i)
  {
    hide Accepts, Subsumes, FirstMatch;
    if Shadowed(routes, i) {
      var j :| 0 <= j < i && Subsumes(routes[j], routes[i]);
      forall request ensures FirstMatch(routes, request) != Some(i) {
        if Accepts(routes[i], request) {
          SubsumesIsInclusion(routes[j], routes[i], request);
        }
      }
    } else {
      UnshadowedIsReached(routes, i);
    }
  }

  // --- The static-first router the routes are mounted on ---------------------

  /** At the first place where exactly one of the patterns is static, it is a. */
  ghost predicate MoreStatic(a: seq<string>, b: seq<string>) {
    |a| == |b| && exists k | 0 <= k < |a| :: StaticAt(a, b, k)
  }

  ghost predicate StaticAt(a: seq<string>, b: seq<string>, k: nat)
    requires k < |a| == |b|
  {
    !IsVar(a[k]) && IsVar(b[k]) && forall m | 0 <= m < k :: IsVar(a[m]) == IsVar(b[m])
  }

  /** Route a's pattern is the more static one. */
  ghost predicate Beats(a: Route, b: Route) {
    MoreStatic(Segments(a.path), Segments(b.path))
  }

  ghost predicate IsMounted(routes: seq<Route>, i: nat) {
    i < |routes| && !Shadowed(routes, i)
  }

  /**
   The mounted route a static-first router answers with. The path is chosen first, over
   the patterns of all verbs: none on the path is more static than the chosen one; the
   verb is then looked up among the routes mounted at it.
   */
  ghost predicate StaticFirst(routes: seq<Route>, request: Request, i: nat) {
    && IsMounted(routes, i) && Accepts(routes[i], request)
    && forall t: nat | IsMounted(routes, t) && OnPath(routes[t], request) :: !Beats(routes[t], routes[i])
  }

  lemma {:induction false} SameShapeUpTo(a: seq<string>, b: seq<string>, n: nat)
    requires |a| == |b| && n <= |a|
    requires !MoreStatic(a, b) && !MoreStatic(b, a)
    ensures forall k | 0 <= k < n :: IsVar(a[k]) == IsVar(b[k])
  {
    if n > 0 {
      SameShapeUpTo(a, b, n - 1);
      assert !StaticAt(a, b, n - 1) && !StaticAt(b, a, n - 1);
    }
  }

  /** Patterns on one path of which neither is the more static are the same but for variable names. */
  lemma SameShapeMatches(a: Route, b: Route, request: Request)
    requires OnPath(a, request) && OnPath(b, request) && !Beats(a, b) && !Beats(b, a)
    ensures PatternMatches(Segments(a.path), Segments(b.path))
  {
    var p, q, s := Segments(a.path), Segments(b.path), Segments(request.path);
    SameShapeUpTo(p, q, |p|);
    forall k | 0 <= k < |p| ensures IsVar(p[k]) || p[k] == q[k] {
      assert IsVar(p[k]) || p[k] == s[k];
      assert IsVar(q[k]) || q[k] == s[k];
    }
  }

  lemma BeatsIsOneWay(a: Route, b: Route)
    ensures !(Beats(a, b) && Beats(b, a))
  {
    var p, q := Segments(a.path), Segments(b.path);
    if MoreStatic(p, q) {
      var k :| 0 <= k < |p| && StaticAt(p, q, k);
      assert forall m | 0 <= m < |q| :: !StaticAt(q, p, m);
    }
  }

  /**
   Two mounted patterns on one path, of any verbs, are ordered by Beats or share their
   place in the router; in one place no two have the same verb.
   */
  lemma MountedAreOrdered(routes: seq<Route>, i: nat, j: nat, request: Request)
    requires IsMounted(routes, i) && IsMounted(routes, j) && i != j
    requires OnPath(routes[i], request) && OnPath(routes[j], request)
    ensures !(Beats(routes[i], routes[j]) && Beats(routes[j], routes[i]))
    ensures !Beats(routes[i], routes[j]) && !Beats(routes[j], routes[i]) ==>
              && routes[i].verb != routes[j].verb
              && PatternMatches(Segments(routes[i].path), Segments(routes[j].path))
              && PatternMatches(Segments(routes[j].path), Segments(routes[i].path))
  {
    hide Beats, PatternMatches, Segments;
    BeatsIsOneWay(routes[i], routes[j]);
    if !Beats(routes[i], routes[j]) && !Beats(routes[j], routes[i]) {
      SameShapeMatches(routes[i], routes[j], request);
      SameShapeMatches(routes[j], routes[i], request);
      var earlier, later := if i < j then i else j, if i < j then j else i;
      assert Subsumes(routes[earlier], routes[later]) <==> routes[earlier].verb == routes[later].verb;
    }
  }

  lemma StaticFirstIsUnique(routes: seq<Route>, request: Request, i: nat, j: nat)
    requires StaticFirst(routes, request, i) && StaticFirst(routes, request, j)
    ensures i == j
  {
    hide Beats, PatternMatches;
    if i != j {
      MountedAreOrdered(routes, i, j, request);
    }
  }

  /** The same place in the router: the patterns match the same paths. */
  predicate SamePlace(a: Route, b: Route) {
    PatternMatches(Segments(a.path), Segments(b.path)) && PatternMatches(Segments(b.path), Segments(a.path))
  }

  /** A mounted pattern, of any verb, that the router chooses for the path. */
  ghost predicate Chosen(routes: seq<Route>, request: Request, c: nat) {
    && IsMounted(routes, c) && OnPath(routes[c], request)
    && forall t: nat | IsMounted(routes, t) && OnPath(routes[t], request) :: !Beats(routes[t], routes[c])
  }

  lemma SamePlaceSameRank(a: Route, b: Route, t: Route, request: Request)
    requires SamePlace(a, b) && OnPath(b, request)
    ensures OnPath(a, request) && (Beats(t, a) <==> Beats(t, b))
  {
    var p, q, s, r := Segments(a.path), Segments(b.path), Segments(request.path), Segments(t.path);
    forall k | 0 <= k < |p| ensures IsVar(p[k]) == IsVar(q[k]) && (IsVar(p[k]) || p[k] == s[k]) {
      assert IsVar(p[k]) || p[k] == q[k];
      assert IsVar(q[k]) || q[k] == p[k];
    }
    assert |r| == |p| ==> forall k | 0 <= k < |p| :: StaticAt(r, p, k) == StaticAt(r, q, k);
  }

  /** That answer is the router's two steps: choose a path, then find the verb at its place. */
  lemma StaticFirstIsPathThenVerb(routes: seq<Route>, request: Request, i: nat)
    ensures StaticFirst(routes, request, i) <==>
              exists c: nat :: Chosen(routes, request, c) && IsMounted(routes, i) && SamePlace(routes[i], routes[c])
                               && routes[i].verb == request.verb
  {
    hide Beats, OnPath, PatternMatches;
    if StaticFirst(routes, request, i) {
      MatchesItself(Segments(routes[i].path));
      assert Chosen(routes, request, i) && SamePlace(routes[i], routes[i]);
    }
    forall c: nat | Chosen(routes, request, c) && IsMounted(routes, i) && SamePlace(routes[i], routes[c])
                    && routes[i].verb == request.verb
      ensures StaticFirst(routes, request, i)
    {
      forall t: nat | IsMounted(routes, t) && OnPath(routes[t], request) ensures !Beats(routes[t], routes[i]) {
        SamePlaceSameRank(routes[i], routes[c], routes[t], request);
      }
      SamePlaceSameRank(routes[i], routes[c], routes[i], request);
    }
  }

  /** The static-first router over the mounted routes answers like the reference. */
  ghost predicate RoutersAgree(routes: seq<Route>) {
    forall request, i: nat :: FirstMatch(routes, request) == Some(i) ==> StaticFirst(routes, request, i)
  }

  predicate Overlap(a: seq<string>, b: seq<string>) {
    |a| == |b| && forall k | 0 <= k < |a| :: IsVar(a[k]) || IsVar(b[k]) || a[k] == b[k]
  }

  predicate RoutesOverlap(a: Route, b: Route) {
    Overlap(Segments(a.path), Segments(b.path))
  }

  /** The pattern of the paths both patterns match. */
  function Meet(a: seq<string>, b: seq<string>): (m: seq<string>)
    requires Overlap(a, b)
    ensures |m| == |a|
  {
    seq(|a|, k requires 0 <= k < |a| => if IsVar(a[k]) then b[k] else a[k])
  }

  /** An earlier route of i's verb than i answers on all the paths i and j share. */
  ghost predicate Covered(routes: seq<Route>, i: nat, j: nat)
    requires i < |routes| && j < |routes| && RoutesOverlap(routes[i], routes[j])
  {
    exists h | 0 <= h < i ::
      routes[h].verb == routes[i].verb
      && PatternMatches(Segments(routes[h].path), Meet(Segments(routes[i].path), Segments(routes[j].path)))
  }

  /** Mounted routes that share paths on which j, of whatever verb, is the more static. */
  ghost predicate Inverted(routes: seq<Route>, i: nat, j: nat) {
    && IsMounted(routes, i) && IsMounted(routes, j)
    && RoutesOverlap(routes[i], routes[j]) && Beats(routes[j], routes[i])
  }

  ghost predicate InversionsCovered(routes: seq<Route>) {
    forall i: nat, j: nat | Inverted(routes, i, j) :: Covered(routes, i, j)
  }

  lemma FirstMatchIsUncovered(routes: seq<Route>, request: Request, i: nat, j: nat)
    requires FirstMatch(routes, request) == Some(i) && j < |routes| && OnPath(routes[j], request)
    ensures RoutesOverlap(routes[i], routes[j]) && !Covered(routes, i, j)
  {
    var a, b, s := Segments(routes[i].path), Segments(routes[j].path), Segments(request.path);
    assert Overlap(a, b) by {
      forall k | 0 <= k < |a| ensures IsVar(a[k]) || IsVar(b[k]) || a[k] == b[k] {
        assert IsVar(a[k]) || a[k] == s[k];
      }
    }
    forall h | 0 <= h < i && routes[h].verb == routes[i].verb
      ensures !PatternMatches(Segments(routes[h].path), Meet(a, b))
    {
      var p, m := Segments(routes[h].path), Meet(a, b);
      assert !PatternMatches(p, s);
      if |p| == |s| {
        var k :| 0 <= k < |p| && !IsVar(p[k]) && p[k] != s[k];
        assert m[k] == s[k] || IsVar(m[k]);
      }
    }
  }

  lemma CoveredAgree(routes: seq<Route>, request: Request, i: nat)
    requires InversionsCovered(routes) && FirstMatch(routes, request) == Some(i)
    ensures StaticFirst(routes, request, i)
  {
    hide Beats, PatternMatches, FirstMatch, OnPath, Covered, RoutesOverlap;
    ShadowedIffUnreachable(routes, i);
    forall t: nat | IsMounted(routes, t) && OnPath(routes[t], request) ensures !Beats(routes[t], routes[i]) {
      FirstMatchIsUncovered(routes, request, i, t);
      assert !Inverted(routes, i, t);
    }
  }

  lemma MeetWithin(a: seq<string>, b: seq<string>)
    requires Overlap(a, b)
    ensures PatternMatches(a, Meet(a, b)) && PatternMatches(b, Meet(a, b))
  {
  }

  lemma AgreeCovered(routes: seq<Route>, i: nat, j: nat)
    requires RoutersAgree(routes) && Inverted(routes, i, j)
    ensures Covered(routes, i, j)
  {
    hide Witness, Accepts, OnPath, FirstMatch, Beats, Segments, PatternMatches;
    var a, b := Segments(routes[i].path), Segments(routes[j].path);
    var m := Meet(a, b);
    MeetWithin(a, b);
    forall p | p in m ensures '/' !in p {
      var k :| 0 <= k < |m| && m[k] == p;
      assert a[k] in a && b[k] in b;
    }
    var request := Witness(routes, routes[i].verb, m);
    WitnessAccepted(routes, i, routes[i].verb, m);
    WitnessMatched(routes, j, routes[i].verb, m);
    var f := FirstMatch(routes, request).value;
    assert StaticFirst(routes, request, f);
    WitnessAccepted(routes, f, routes[i].verb, m);
    assert f != i;
  }

  /**
   The mounted static-first router replicates the first-match reference on every
   request exactly when, wherever a mounted pattern of any verb is more static than a
   mounted route on the paths they share, an earlier route answers there instead.
   */
  lemma RoutersAgreeIff(routes: seq<Route>)
    ensures RoutersAgree(routes) <==> InversionsCovered(routes)
  {
    hide Covered, StaticFirst, FirstMatch;
    if InversionsCovered(routes) {
      forall request, i: nat | FirstMatch(routes, request) == Some(i)
        ensures StaticFirst(routes, request, i)
      {
        CoveredAgree(routes, request, i);
      }
    }
    if RoutersAgree(routes) {
      forall i: nat, j: nat | Inverted(routes, i, j) ensures Covered(routes, i, j) {
        AgreeCovered(routes, i, j);
      }
    }
  }

  /** Any two same-verb patterns with a common path are comparable. */
  ghost predicate Comparable(routes: seq<Route>) {
    forall i, j | 0 <= i < |routes| && 0 <= j < |routes| && routes[i].verb == routes[j].verb
                  && RoutesOverlap(routes[i], routes[j]) ::
      Subsumes(routes[i], routes[j]) || Subsumes(routes[j], routes[i])
  }

  lemma SubsumedIsNotBeaten(a: Route, b: Route)
    requires Subsumes(b, a)
    ensures !Beats(b, a)
  {
  }

  lemma OnPathsOverlap(a: Route, b: Route, request: Request)
    requires OnPath(a, request) && OnPath(b, request)
    ensures RoutesOverlap(a, b)
  {
  }

  /**
   Under comparability the first match is the unique most specific mounted route of its
   verb, and the static-first router answers with it exactly when no mounted pattern of
   another verb on the path is more static.
   */
  lemma ComparableMostSpecific(routes: seq<Route>, request: Request, i: nat)
    requires Comparable(routes) && FirstMatch(routes, request) == Some(i)
    ensures forall t: nat | IsMounted(routes, t) && Accepts(routes[t], request) && t != i ::
              Subsumes(routes[t], routes[i]) && !Subsumes(routes[i], routes[t])
    ensures StaticFirst(routes, request, i) <==>
              forall t: nat | IsMounted(routes, t) && OnPath(routes[t], request) && routes[t].verb != routes[i].verb ::
                !Beats(routes[t], routes[i])
  {
    hide Beats, Subsumes, OnPath, RoutesOverlap, FirstMatch;
    ShadowedIffUnreachable(routes, i);
    forall t: nat | IsMounted(routes, t) && Accepts(routes[t], request)
      ensures t != i ==> Subsumes(routes[t], routes[i]) && !Subsumes(routes[i], routes[t])
      ensures !Beats(routes[t], routes[i])
    {
      NotBeatenByItself(routes[i]);
      if t != i {
        assert t > i;
        OnPathsOverlap(routes[i], routes[t], request);
        assert !Subsumes(routes[i], routes[t]);
        SubsumedIsNotBeaten(routes[i], routes[t]);
      }
    }
  }

  lemma NotBeatenByItself(a: Route)
    ensures !Beats(a, a)
  {
  }

  /** The static-first router differs from the reference on these two routes, though neither is shadowed. */
  ghost predicate Diverge(first: Route, second: Route) {
    && IsMounted([first, second], 0) && IsMounted([first, second], 1)
    && !RoutersAgree([first, second])
  }

  lemma InvertedPairDiverges(first: Route, second: Route)
    requires RoutesOverlap(first, second) && Beats(second, first) && !Subsumes(first, second)
    ensures Diverge(first, second)
  {
    hide Beats, Subsumes, RoutersAgree, PatternMatches;
    var routes := [first, second];
    assert routes[0] == first && routes[1] == second;
    assert Inverted(routes, 0, 1) && !Covered(routes, 0, 1);
    RoutersAgreeIff(routes);
  }

  /** The patterns of the examples: /y/x is on both paths, and /y/{b} is the more static. */
  lemma ExamplePatterns(verb: string)
    ensures var first, second := Route("GET", "/{a}/x"), Route(verb, "/y/{b}");
            && RoutesOverlap(first, second) && Beats(second, first)
            && !PatternMatches(Segments(first.path), Segments(second.path))
  {
    hide Segments;
    ThreeSegments("", "{a}", "x");
    ThreeSegments("", "y", "{b}");
    assert "" + "/" + "{a}" + "/" + "x" == "/{a}/x";
    assert "" + "/" + "y" + "/" + "{b}" == "/y/{b}";
    var a, b := Segments("/{a}/x"), Segments("/y/{b}");
    assert a == ["", "{a}", "x"] && b == ["", "y", "{b}"];
    assert b[1][0] == 'y' && StaticAt(b, a, 1);
    assert !IsVar(a[2]) && |a[2]| == 1 && |b[2]| == 3;
  }

  /** Within one verb: GET /{a}/x, then GET /y/{b}. */
  lemma RoutersCanDiffer()
    ensures Diverge(Route("GET", "/{a}/x"), Route("GET", "/y/{b}"))
  {
    hide Beats, RoutesOverlap, PatternMatches, Segments, Diverge;
    ExamplePatterns("GET");
    InvertedPairDiverges(Route("GET", "/{a}/x"), Route("GET", "/y/{b}"));
  }

  /** Across verbs: GET /y/x belongs to GET /{a}/x, and the router finds the path of POST /y/{b}. */
  lemma RoutersCanDifferAcrossVerbs()
    ensures Diverge(Route("GET", "/{a}/x"), Route("POST", "/y/{b}"))
  {
    hide Beats, RoutesOverlap, PatternMatches, Segments, Diverge;
    ExamplePatterns("POST");
    assert "GET"[0] != "POST"[0];
    InvertedPairDiverges(Route("GET", "/{a}/x"), Route("POST", "/y/{b}"));
  }

  lemma ThreeSegments(a: string, b: string, c: string)
    requires '/' !in a && '/' !in b && '/' !in c
    ensures Segments(a + "/" + b + "/" + c) == [a, b, c]
  {
    SplitFirst(b, '/', c);
    SplitFirst(a, '/', b + "/" + c);
    SplitWord(c, '/');
    assert a + "/" + b + "/" + c == a + "/" + (b + "/" + c);
  }
}
