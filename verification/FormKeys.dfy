/**
 Keys against the plan: the planned keys are pairwise distinct, a key either binds at
 exactly one planned leaf or merely enters members on its way, and the spellings of a
 map entry bind alike at any depth.
 */
module FormKeys {
  import opened Wrappers
  import opened Splitting
  import opened FormBinder
  import opened FormEffects

  // --- The plan lists no leaf twice ---------------------------------------------

  lemma NotAmongOthers(fs: seq<Field>)
    requires Unique(fs) && fs != []
    ensures fs[0] !in fs[1..] && Unique(fs[1..])
    ensures fs[0].kind.Of? ==> Unique(fs[0].kind.message.fields)
  {
    assert forall k | 0 <= k < |fs[1..]| :: fs[1..][k] == fs[k + 1];
  }

  /** The walk meets every leaf once. */
  lemma {:induction false} LeafPathsDistinct(fs: seq<Field>, i: nat, j: nat)
    requires Unique(fs) && i < j < |LeafPaths(fs)|
    ensures LeafPaths(fs)[i] != LeafPaths(fs)[j]
    decreases fs
  {
    hide Unique, Traversed;
    NotAmongOthers(fs);
    UnfoldPaths(fs);
    var f, rest := fs[0], fs[1..];
    var first, others := PathsOf(f), LeafPaths(rest);
    if i >= |first| {
      LeafPathsDistinct(rest, i - |first|, j - |first|);
    } else if j < |first| {
      var below := LeafPaths(f.kind.message.fields);
      LeafPathsDistinct(f.kind.message.fields, i, j);
      assert first[i] == [f] + below[i] && first[j] == [f] + below[j];
      assert first[i][1..] == below[i] && first[j][1..] == below[j];
    } else {
      assert LeafPaths(fs)[j] == others[j - |first|];
      LeafPathsIff(rest, others[j - |first|]);
      assert first[i][0] == f;
    }
  }

  lemma NamesBelow(p: seq<Field>)
    requires p != []
    ensures ProtoNames(Names(p)) == [p[0].name] + ProtoNames(Names(p[1..]))
    ensures JsonNames(Names(p)) == [p[0].jsonName] + JsonNames(Names(p[1..]))
  {
  }

  /** Different leaves differ in their proto names and in their JSON names. */
  lemma {:induction false} LeafNamesDiffer(fs: seq<Field>, p: seq<Field>, q: seq<Field>)
    requires Unique(fs) && IsLeafPath(fs, p) && IsLeafPath(fs, q) && p != q
    ensures ProtoNames(Names(p)) != ProtoNames(Names(q)) && JsonNames(Names(p)) != JsonNames(Names(q))
    decreases |p|
  {
    hide Traversed, Names, ProtoNames, JsonNames;
    FindOwn(fs, p[0]);
    FindOwn(fs, q[0]);
    NamesBelow(p);
    NamesBelow(q);
    if p[0] == q[0] {
      assert p == [p[0]] + p[1..] && q == [q[0]] + q[1..];
      UniqueBelow(fs, p[0]);
      LeafNamesDiffer(p[0].kind.message.fields, p[1..], q[1..]);
      var a, b, c := [p[0].name], ProtoNames(Names(p[1..])), ProtoNames(Names(q[1..]));
      assert (a + b)[1..] == b && (a + c)[1..] == c;
      var d, e, g := [p[0].jsonName], JsonNames(Names(p[1..])), JsonNames(Names(q[1..]));
      assert (d + e)[1..] == e && (d + g)[1..] == g;
    } else {
      assert ProtoNames(Names(p))[0] != ProtoNames(Names(q))[0];
      assert JsonNames(Names(p))[0] != JsonNames(Names(q))[0];
    }
  }

  predicate DotFree(names: seq<string>) {
    forall k | 0 <= k < |names| :: '.' !in names[k]
  }

  lemma JoinedDiffer(a: seq<string>, b: seq<string>)
    requires a != [] && b != [] && DotFree(a) && DotFree(b) && a != b
    ensures Join(a, '.') != Join(b, '.')
  {
    hide Split, Join;
    assert forall s | s in a :: '.' !in s;
    assert forall s | s in b :: '.' !in s;
    SplitJoin(a, '.');
    SplitJoin(b, '.');
  }

  /**
   The walker's list holds no key twice, in either spelling: of any two of its entries the
   proto keys differ, and the JSON keys do, as soon as the names in them hold no dots.
   */
  lemma PlannedKeysDiffer(msg: Message, i: nat, j: nat)
    requires Unique(msg.fields) && i < j < |LeafPaths(msg.fields)|
    ensures var paths, plan := LeafPaths(msg.fields), DescribeAll([], LeafPaths(msg.fields));
            && (DotFree(ProtoNames(Names(paths[i]))) && DotFree(ProtoNames(Names(paths[j]))) ==>
                  plan[i].pathProto != plan[j].pathProto)
            && (DotFree(JsonNames(Names(paths[i]))) && DotFree(JsonNames(Names(paths[j]))) ==>
                  plan[i].pathJson != plan[j].pathJson)
  {
    hide Unique, LeafPaths, DotFree;
    var p, q := LeafPaths(msg.fields)[i], LeafPaths(msg.fields)[j];
    LeafPathsDistinct(msg.fields, i, j);
    LeafPathsIff(msg.fields, p);
    LeafPathsIff(msg.fields, q);
    LeafNamesDiffer(msg.fields, p, q);
    assert [] + p == p && [] + q == q;
    if DotFree(ProtoNames(Names(p))) && DotFree(ProtoNames(Names(q))) {
      JoinedDiffer(ProtoNames(Names(p)), ProtoNames(Names(q)));
    }
    if DotFree(JsonNames(Names(p))) && DotFree(JsonNames(Names(q))) {
      JoinedDiffer(JsonNames(Names(p)), JsonNames(Names(q)));
    }
  }

  /** Proto names are never captured: the plan's proto key of a leaf leads to that leaf. */
  lemma {:induction false} ProtoNamesAreClear(fs: seq<Field>, p: seq<Field>)
    requires Unique(fs) && IsLeafPath(fs, p)
    ensures Spells(ProtoNames(Names(p)), p) && AllClear(fs, p, ProtoNames(Names(p)))
    decreases |p|
  {
    hide Traversed, ProtoNames, Names;
    FindOwn(fs, p[0]);
    NamesBelow(p);
    var names := ProtoNames(Names(p));
    assert names[1..] == ProtoNames(Names(p[1..]));
    forall g | g in fs && g.name == p[0].name ensures g == p[0] {
      FindOwn(fs, g);
    }
    assert Clear(fs, p[0], names[0]);
    if |p| > 1 {
      UniqueBelow(fs, p[0]);
      ProtoNamesAreClear(p[0].kind.message.fields, p[1..]);
    } else {
      assert p[1..] == [];
    }
    assert forall k | 1 <= k < |p| :: p[k] == p[1..][k - 1] && names[k] == names[1..][k - 1];
  }

  /** The plan's proto key of a leaf binds at that leaf. */
  lemma PlannedKeyBinds(parse: Parser, msg: Message, v: Fields, p: seq<Field>, values: seq<string>)
    requires Unique(msg.fields) && IsLeafPath(msg.fields, p) && DotFree(ProtoNames(Names(p)))
    requires !p[|p| - 1].card.Keyed? && values != []
    ensures Descends(p)
    ensures BindAll(parse, msg, v, [(Describe(p).pathProto, values)]) == Store(parse, msg, v, p, values)
  {
    ProtoNamesAreClear(msg.fields, p);
    hide BindAll, Store, IsLeafPath, AllClear, Spells;
    LeafKeyBinds(parse, msg, v, p, ProtoNames(Names(p)), values);
  }

  // --- The plan tells the truth about leaves ------------------------------------

  lemma NothingTaken(msg: Message, f: Field)
    ensures !Taken(msg, map[], f)
  {
  }

  /** A leaf is planned as repeated exactly if several values of it are not too many for the binder. */
  lemma PlannedRepeatedIff(parse: Parser, msg: Message, p: seq<Field>, segment: string, a: string, b: string)
    requires p != [] && !p[|p| - 1].card.Keyed?
    ensures var f := p[|p| - 1];
            Describe(p).repeated <==>
              PopulateLeaf(parse, msg, map[], f, segment, [a, b]).error != Some(TooManyValues(f.name))
  {
    hide ParseAll, Taken;
    NothingTaken(msg, p[|p| - 1]);
  }

  ghost predicate CanBeTaken(parse: Parser, f: Field, segment: string, values: seq<string>, oneof: string)
    requires values != []
  {
    exists msg, v :: PopulateLeaf(parse, msg, v, f, segment, values).error == Some(OneofTaken(oneof))
  }

  /** A leaf is planned with a oneof exactly if the binder can find that oneof taken. */
  lemma PlannedOneofIff(parse: Parser, p: seq<Field>, segment: string, values: seq<string>, oneof: string)
    requires p != [] && values != []
    ensures Describe(p).oneof == Some(oneof) <==> CanBeTaken(parse, p[|p| - 1], segment, values, oneof)
  {
    hide ParseAll, ParseMapKey, ParseField, FindName;
    var f := p[|p| - 1];
    if Describe(p).oneof == Some(oneof) {
      var sibling := f.(name := f.name + "x");
      var msg, v := Message("M", [sibling]), map[f.name + "x" := Msg(map[])];
      assert |f.name + "x"| > |f.name|;
      assert Siblings(f, msg.fields[0]) && msg.fields[0].name in v;
      assert PopulateLeaf(parse, msg, v, f, segment, values).error == Some(OneofTaken(oneof));
    }
  }

  /** Some parser lets an entry of the map field be bound. */
  ghost predicate EntriesBind(f: Field) {
    exists parse: Parser, text, value :: EntryBinds(parse, f, text, value)
  }

  ghost predicate EntryBinds(parse: Parser, f: Field, text: string, value: string) {
    PopulateMap(parse, Message("M", [f]), map[], f, text, [value]).error.None?
  }

  lemma EntryNeedsKinds(parse: Parser, f: Field, text: string, value: string, kf: Field, vf: Field)
    requires f.kind.Of? && EntryBinds(parse, f, text, value)
    requires FindName(f.kind.message.fields, "key") == Some(kf) && FindName(f.kind.message.fields, "value") == Some(vf)
    ensures Plan(kf.kind).Bindable? && Plan(vf.kind).Bindable?
  {
    hide Plan, ParseField, FindName, ParseMapKey, SetField;
    ParsedAsPlanned(parse, kf.kind, ParseMapKey(text).value.1);
    ParsedAsPlanned(parse, vf.kind, value);
  }

  lemma KindsBindEntry(f: Field, kf: Field, vf: Field)
    requires f.kind.Of? && Plan(kf.kind).Bindable? && Plan(vf.kind).Bindable?
    requires FindName(f.kind.message.fields, "key") == Some(kf) && FindName(f.kind.message.fields, "value") == Some(vf)
    ensures EntriesBind(f)
  {
    hide Plan, ParseField, FindName, ParseMapKey, SetField;
    var accept: Parser := (k, s) => Some(Basic(StringKey(s)));
    BracketForm("m", "k");
    ParsedAsPlanned(accept, kf.kind, "k");
    ParsedAsPlanned(accept, vf.kind, "x");
    assert EntryBinds(accept, f, "m" + "[" + "k" + "]", "x");
  }

  /** A map's planned kinds are both supported exactly if the binder can bind an entry of it. */
  lemma PlannedMapIff(p: seq<Field>)
    requires p != []
    ensures Describe(p).keyed.Some? <==> p[|p| - 1].card.Keyed?
    ensures p[|p| - 1].card.Keyed? ==>
              (Describe(p).keyed.value.0.Bindable? && Describe(p).keyed.value.1.Bindable? <==> EntriesBind(p[|p| - 1]))
  {
    hide Plan, EntryBinds, FindName;
    var f := p[|p| - 1];
    if EntriesBind(f) {
      var parse: Parser, text, value :| EntryBinds(parse, f, text, value);
      EntryHasFields(parse, f, text, value);
      EntryNeedsKinds(parse, f, text, value, FindName(f.kind.message.fields, "key").value,
                      FindName(f.kind.message.fields, "value").value);
    }
    if f.card.Keyed? && MapPlan(f.kind).0.Bindable? && MapPlan(f.kind).1.Bindable? {
      KindsBindEntry(f, FindName(f.kind.message.fields, "key").value, FindName(f.kind.message.fields, "value").value);
    }
  }

  lemma EntryHasFields(parse: Parser, f: Field, text: string, value: string)
    requires EntryBinds(parse, f, text, value)
    ensures f.kind.Of?
    ensures FindName(f.kind.message.fields, "key").Some? && FindName(f.kind.message.fields, "value").Some?
  {
    hide ParseField, FindName, ParseMapKey, SetField;
  }

  /** A Struct takes any key no field has by name: it stands for the field numbered one. */
  lemma StructTakesAnyKey(msg: Message, segment: string)
    requires msg.fullName == "google.protobuf.Struct" && forall f | f in msg.fields :: segment !in {f.name, f.jsonName}
    ensures match Resolve(msg, segment)
            case Some(f) => f in msg.fields && f.number == 1
            case None => forall f | f in msg.fields :: f.number != 1
  {
    forall f | f in msg.fields ensures f.name != segment && f.jsonName != segment {
      assert segment !in {f.name, f.jsonName};
    }
  }

  // --- What a key can change ----------------------------------------------------

  predicate Entered(f: Field): (yes: bool)
    ensures yes ==> f.kind.Of?
  {
    f.card.Singular? && f.kind.Of?
  }

  /** The member messages a key's segments enter before the last one. */
  function Way(msg: Message, segments: seq<string>): (way: seq<Field>)
    ensures forall k | 0 <= k < |way| :: Entered(way[k])
    decreases |segments|
  {
    if |segments| <= 1 then []
    else
      match Resolve(msg, segments[0])
      case None => []
      case Some(fd) => if Entered(fd) then [fd] + Way(fd.kind.message, segments[1..]) else []
  }

  /** The message with the members on the way merely entered: allocated, their oneof siblings cleared. */
  function EnteredBy(msg: Message, v: Fields, way: seq<Field>): Fields
    requires forall k | 0 <= k < |way| :: Entered(way[k])
    decreases |way|
  {
    if way == [] then v
    else
      assert Entered(way[0]);
      var child := Child(v, way[0]);
      var inner := if child.Msg? then Msg(EnteredBy(way[0].kind.message, child.fields, way[1..])) else child;
      SetField(msg, v, way[0], inner)
  }

  /**
   The key binds at this planned leaf: it leads there and ends there, or goes on below it
   and the leaf is a map, or a message bound as a leaf.
   */
  ghost predicate BindsAt(msg: Message, segments: seq<string>, p: seq<Field>) {
    && IsLeafPath(msg.fields, p) && |p| <= |segments| && Follow(msg, segments[..|p|]) == Some(p)
    && (|p| == |segments| || p[|p| - 1].card.Keyed? || Entered(p[|p| - 1]))
  }

  ghost predicate BindsSomewhere(msg: Message, segments: seq<string>) {
    exists p :: BindsAt(msg, segments, p)
  }

  lemma FollowFirst(msg: Message, segments: seq<string>, n: nat)
    requires 0 < n <= |segments| && Follow(msg, segments[..n]).Some?
    ensures var p := Follow(msg, segments[..n]).value;
            && p != [] && Resolve(msg, segments[0]) == Some(p[0])
            && (n > 1 ==> p[0].kind.Of? && Follow(p[0].kind.message, segments[1..][..n - 1]) == Some(p[1..]))
  {
    hide Resolve;
    assert segments[..n][1..] == segments[1..][..n - 1];
    FollowDescends(msg, segments[..n]);
  }

  /** A key binds at one planned leaf at most. */
  lemma {:induction false} BindsAtOne(msg: Message, segments: seq<string>, p: seq<Field>, q: seq<Field>)
    requires BindsAt(msg, segments, p) && BindsAt(msg, segments, q)
    ensures p == q
    decreases |p|
  {
    hide Resolve, Follow, WellKnown;
    FollowFirst(msg, segments, |p|);
    FollowFirst(msg, segments, |q|);
    assert p == [p[0]] + p[1..] && q == [q[0]] + q[1..];
    if |p| > 1 {
      BindsAtOne(p[0].kind.message, segments[1..], p[1..], q[1..]);
    }
  }

  lemma BindsBelow(msg: Message, segments: seq<string>)
    requires |segments| > 1 && Resolve(msg, segments[0]).Some?
    ensures var fd := Resolve(msg, segments[0]).value;
            Traversed(fd) && BindsSomewhere(fd.kind.message, segments[1..]) ==> BindsSomewhere(msg, segments)
  {
    hide Resolve, WellKnown;
    var fd := Resolve(msg, segments[0]).value;
    if Traversed(fd) && BindsSomewhere(fd.kind.message, segments[1..]) {
      ResolvedIsMember(msg, segments[0]);
      var p :| BindsAt(fd.kind.message, segments[1..], p);
      var q := [fd] + p;
      assert q[1..] == p && segments[..|q|][1..] == segments[1..][..|p|] && q[|q| - 1] == p[|p| - 1];
      assert BindsAt(msg, segments, q);
    }
  }

  lemma BindsHere(msg: Message, segments: seq<string>)
    requires segments != [] && Resolve(msg, segments[0]).Some?
    ensures var fd := Resolve(msg, segments[0]).value;
            !Traversed(fd) && (|segments| == 1 || fd.card.Keyed? || Entered(fd)) ==> BindsSomewhere(msg, segments)
  {
    hide Resolve, WellKnown;
    var fd := Resolve(msg, segments[0]).value;
    ResolvedIsMember(msg, segments[0]);
    if !Traversed(fd) && (|segments| == 1 || fd.card.Keyed? || Entered(fd)) {
      assert segments[..1] == [segments[0]];
      assert BindsAt(msg, segments, [fd]);
    }
  }

  lemma LastSegment(parse: Parser, msg: Message, v: Fields, fd: Field, segment: string, values: seq<string>)
    requires values != []
    ensures var r := PopulateLeaf(parse, msg, v, fd, segment, values);
            (r.error.Some? || Traversed(fd) ==> r.message == v)
    ensures fd.card.Keyed? ==>
              var r := PopulateMap(parse, msg, v, fd, segment, values); r.error.Some? ==> r.message == v
  {
    hide WellKnown, ParsesMessage, ParseAll, ParseMapKey, SetField, Taken, FindName;
    if fd.kind.Of? {
      ListsAgree(fd.kind.message.fullName);
    }
  }

  /**
   A key does more than enter the members on its way only if its binding succeeds, and only
   if it binds at a planned leaf.
   */
  lemma {:induction false} KeyOnlyEnters(parse: Parser, msg: Message, v: Fields, segments: seq<string>,
                                         values: seq<string>)
    requires values != []
    ensures var r := Populate(parse, msg, v, segments, values);
            r.error.Some? || !BindsSomewhere(msg, segments) ==> r.message == EnteredBy(msg, v, Way(msg, segments))
    decreases |segments|
  {
    hide Resolve, PopulateLeaf, PopulateMap, SetField, WellKnown, BindsSomewhere, Join;
    if segments != [] && Resolve(msg, segments[0]).Some? {
      var fd := Resolve(msg, segments[0]).value;
      BindsHere(msg, segments);
      LastSegment(parse, msg, v, fd, segments[0], values);
      if |segments| > 1 {
        BindsBelow(msg, segments);
        LastSegment(parse, msg, v, fd, segments[1], values);
        LastSegment(parse, msg, v, fd, Join(segments, '.'), values);
        if Entered(fd) {
          KeyEnters(parse, msg, v, fd, segments, values);
        }
      }
    }
  }

  lemma {:induction false} KeyEnters(parse: Parser, msg: Message, v: Fields, fd: Field, segments: seq<string>,
                                     values: seq<string>)
    requires values != [] && |segments| > 1 && Resolve(msg, segments[0]) == Some(fd) && Entered(fd)
    ensures Way(msg, segments) == [fd] + Way(fd.kind.message, segments[1..])
    ensures var r := Populate(parse, msg, v, segments, values);
            r.error.Some? || !BindsSomewhere(fd.kind.message, segments[1..]) ==>
              r.message == EnteredBy(msg, v, Way(msg, segments))
    decreases |segments|, 0
  {
    hide Resolve, BindsSomewhere, Join;
    var child, below := Child(v, fd), Way(fd.kind.message, segments[1..]);
    assert ([fd] + below)[1..] == below;
    if child.Msg? {
      KeyOnlyEnters(parse, fd.kind.message, child.fields, segments[1..], values);
      SetTwice(msg, v, fd, child, Msg(Populate(parse, fd.kind.message, child.fields, segments[1..], values).message));
    }
  }

  /** A failed binding at a path leaves its innermost message alone: it has entered what leads there, and no more. */
  lemma {:induction false} FailureOnlyEnters(parse: Parser, msg: Message, v: Fields, p: seq<Field>, values: seq<string>)
    requires Descends(p) && values != [] && !p[|p| - 1].card.Keyed? && Store(parse, msg, v, p, values).error.Some?
    ensures forall k | 0 <= k < |p| - 1 :: Entered(p[k])
    ensures Store(parse, msg, v, p, values).message == EnteredBy(msg, v, p[..|p| - 1])
    decreases |p|
  {
    hide PopulateLeaf, SetField;
    if |p| == 1 {
      LastSegment(parse, msg, v, p[0], "", values);
    } else {
      var way, child := p[..|p| - 1], Child(v, p[0]);
      assert way[0] == p[0] && way[1..] == p[1..][..|p[1..]| - 1];
      if child.Msg? {
        FailureOnlyEnters(parse, p[0].kind.message, child.fields, p[1..], values);
        var inner := Msg(Store(parse, p[0].kind.message, child.fields, p[1..], values).message);
        SetTwice(msg, v, p[0], child, inner);
      }
    }
  }

  ghost predicate Leads(way: seq<Field>, q: seq<Field>) {
    |way| < |q| && q[..|way|] == way
  }

  /**
   Entering members shows at no other path, except that it clears the members of oneofs that
   the way displaces; what lies below the way is as it was.
   */
  lemma {:induction false} EnteringKeeps(msg: Message, v: Fields, way: seq<Field>, q: seq<Field>)
    requires Unique(msg.fields) && Within(msg, q) && forall k | 0 <= k < |way| :: Entered(way[k])
    requires Leads(way, q) || Part(way, q)
    ensures Get(EnteredBy(msg, v, way), q) == if Part(way, q) && Displaces(way, q) then None else Get(v, q)
    decreases |way|
  {
    if way != [] {
      var f, child := way[0], Child(v, way[0]);
      var value := if child.Msg? then Msg(EnteredBy(f.kind.message, child.fields, way[1..])) else child;
      if f.name != q[0].name {
        EnterKeeps(msg, v, f, value, q);
      } else {
        assert f == q[0] && (Leads(way, q) ==> Leads(way[1..], q[1..]));
        UniqueBelow(msg.fields, f);
        if child.Msg? {
          EnteringKeeps(f.kind.message, child.fields, way[1..], q[1..]);
        }
        EmptyGet(q[1..]);
      }
    }
  }

  lemma {:induction false} WayToLeaf(fs: seq<Field>, p: seq<Field>, q: seq<Field>)
    requires Unique(fs) && IsLeafPath(fs, p) && IsLeafPath(fs, q)
    ensures Leads(p[..|p| - 1], q) || Part(p[..|p| - 1], q)
    decreases |p|
  {
    hide WellKnown;
    FindOwn(fs, p[0]);
    FindOwn(fs, q[0]);
    if |p| > 1 && p[0] == q[0] {
      UniqueBelow(fs, p[0]);
      WayToLeaf(p[0].kind.message.fields, p[1..], q[1..]);
      assert p[..|p| - 1][1..] == p[1..][..|p[1..]| - 1];
    }
  }

  /**
   A failed key, whatever was bound before: every planned leaf, the failed one included, keeps
   its value, unless it lies in a oneof sibling of a member on the way.
   */
  lemma FailureKeepsLeaves(parse: Parser, msg: Message, earlier: seq<(string, seq<string>)>,
                           p: seq<Field>, q: seq<Field>, segments: seq<string>, values: seq<string>)
    requires Unique(msg.fields) && IsLeafPath(msg.fields, p) && IsLeafPath(msg.fields, q)
    requires Spells(segments, p) && AllClear(msg.fields, p, segments)
    requires DotFree(segments) && !p[|p| - 1].card.Keyed? && values != []
    ensures var v, way := BindAll(parse, msg, map[], earlier).message, p[..|p| - 1];
            var r := BindAll(parse, msg, v, [(Join(segments, '.'), values)]);
            r.error.Some? ==> Get(r.message, q) == if Part(way, q) && Displaces(way, q) then None else Get(v, q)
  {
    hide BindAll, Store, Get, Unique, Typed, IsLeafPath, Displaces, Spells, AllClear, EnteredBy, Part;
    EmptyTyped(msg);
    BindKeepsTyped(parse, msg, map[], earlier);
    var v := BindAll(parse, msg, map[], earlier).message;
    LeafPathFacts(msg, v, p);
    LeafPathFacts(msg, v, q);
    LeafKeyBinds(parse, msg, v, p, segments, values);
    WayToLeaf(msg.fields, p, q);
    if Store(parse, msg, v, p, values).error.Some? {
      FailureOnlyEnters(parse, msg, v, p, values);
      EnteringKeeps(msg, v, p[..|p| - 1], q);
    }
  }

  // --- Map entries --------------------------------------------------------------

  /** The message that segments lead into, through singular messages. */
  function Inside(msg: Message, segments: seq<string>): Option<Message>
    decreases |segments|
  {
    if segments == [] then Some(msg)
    else
      match Resolve(msg, segments[0])
      case None => None
      case Some(fd) => if Entered(fd) then Inside(fd.kind.message, segments[1..]) else None
  }

  /** A map by either of its names, and a key that both spellings can carry. */
  ghost predicate NamesEntry(msg: Message, name: string, key: string) {
    && Lookup(msg, name).Some? && Lookup(msg, name).value.card.Keyed? && Lookup(msg, name).value.oneof.None?
    && name != "" && '.' !in name && '[' !in name && '.' !in key && '[' !in key
    && Lookup(msg, name + "[" + key + "]").None? && msg.fullName != STRUCT
  }

  lemma BracketResolves(msg: Message, name: string, key: string)
    requires NamesEntry(msg, name, key)
    ensures Resolve(msg, name) == Resolve(msg, name + "[" + key + "]") == Lookup(msg, name)
  {
    hide Lookup, ParseMapKey;
    var bracketed := name + "[" + key + "]";
    BracketForm(name, key);
    if key == "" {
      assert bracketed[|bracketed| - 2..] == "[]" && bracketed[..|bracketed| - 2] == name;
    } else {
      assert bracketed[|bracketed| - 2] == key[|key| - 1] != '[';
    }
  }

  lemma {:induction false} EntrySpellings(parse: Parser, msg: Message, v: Fields, above: seq<string>, name: string,
                                          key: string, values: seq<string>)
    requires values != [] && Inside(msg, above).Some? && NamesEntry(Inside(msg, above).value, name, key)
    ensures Populate(parse, msg, v, above + [name, key], values)
         == Populate(parse, msg, v, above + [name + "[" + key + "]"], values)
    decreases |above|
  {
    hide Lookup, ParseMapKey, Taken, Resolve, PopulateRepeated;
    var dotted, bracketed := above + [name, key], above + [name + "[" + key + "]"];
    if above == [] {
      BracketForm(name, key);
      DottedForm(name, key);
      BracketResolves(msg, name, key);
      assert dotted == [name, key] && bracketed == [name + "[" + key + "]"];
      assert Join(dotted, '.') == name + "." + key by { assert dotted[1..] == [key]; }
    } else {
      var fd := Resolve(msg, above[0]).value;
      assert dotted[1..] == above[1..] + [name, key] && bracketed[1..] == above[1..] + [name + "[" + key + "]"];
      assert dotted[0] == bracketed[0] == above[0];
      if Child(v, fd).Msg? {
        EntrySpellings(parse, fd.kind.message, Child(v, fd).fields, above[1..], name, key, values);
      }
    }
  }

  /** At any depth, and by the map's proto or JSON name, an entry is bound alike by field.key and field[key]. */
  lemma MapSpellingsAgree(parse: Parser, msg: Message, v: Fields, above: seq<string>, name: string, key: string,
                          values: seq<string>)
    requires values != [] && DotFree(above)
    requires Inside(msg, above).Some? && NamesEntry(Inside(msg, above).value, name, key)
    ensures BindAll(parse, msg, v, [(Join(above + [name, key], '.'), values)])
         == BindAll(parse, msg, v, [(Join(above + [name + "[" + key + "]"], '.'), values)])
  {
    hide Lookup, Populate, Split, Join;
    var dotted, bracketed := above + [name, key], above + [name + "[" + key + "]"];
    assert forall s | s in dotted :: '.' !in s;
    assert forall s | s in bracketed :: '.' !in s;
    SplitJoin(dotted, '.');
    SplitJoin(bracketed, '.');
    EntrySpellings(parse, msg, v, above, name, key, values);
    OneKey(parse, msg, v, Join(dotted, '.'), values);
    OneKey(parse, msg, v, Join(bracketed, '.'), values);
  }

  lemma OneKey(parse: Parser, msg: Message, v: Fields, key: string, values: seq<string>)
    ensures BindAll(parse, msg, v, [(key, values)]) == Populate(parse, msg, v, Split(key, '.'), values)
  {
    hide Populate, Split;
    assert [(key, values)][1..] == [];
  }
}
