/**
 The form binder and the generator's plan for it: dotted keys populate a message
 tree, and the leaf walk lists the keys there are. Schemas are finite trees, a
 message value is a map from field names to values, and the parser of single
 values is a parameter. Setting or entering a member of a oneof clears the other
 members, as the reflection library does.
 */
module FormBinder {
  import opened Wrappers
  import opened Splitting

  // --- Schemas and values -------------------------------------------------------

  datatype Message = Message(fullName: string, fields: seq<Field>)

  datatype Card = Singular | Repeated | Keyed

  datatype Kind = Plain(tag: string) | Of(message: Message)

  datatype Field = Field(name: string, jsonName: string, number: nat, card: Card, kind: Kind, oneof: Option<string>)

  datatype MapKey =
    | BoolKey(b: bool) | I32Key(n: int) | I64Key(n: int) | U32Key(n: int) | U64Key(n: int) | StringKey(s: string)

  datatype Value =
    | Basic(key: MapKey)
    | Other(text: string)
    | Msg(fields: map<string, Value>)
    | List(items: seq<Value>)
    | Map(entries: map<MapKey, Value>)

  type Fields = map<string, Value>

  type Parser = (Kind, string) -> Option<Value>

  datatype Error =
    | NoFieldPath
    | NoValue
    | NotAMessage
    | OneofTaken(oneof: string)
    | TooManyValues(field: string)
    | ParseFailed
    | ListParseFailed(field: string)
    | MapKeyFormat
    | NotAMap(field: string)
    | MapKeyFailed(field: string)
    | MapValueFailed(field: string)

  /** The message after a binding, and what stopped it. */
  datatype Bound = Bound(message: Fields, error: Option<Error>)

  const STRUCT: string := "google.protobuf.Struct"

  /** The messages the binder parses from one text: the arms of its message parser. */
  predicate ParsesMessage(fullName: string) {
    || fullName == "google.protobuf.Timestamp"
    || fullName == "google.protobuf.Duration"
    || fullName in {
         "google.protobuf.DoubleValue", "google.protobuf.FloatValue", "google.protobuf.Int64Value",
         "google.protobuf.Int32Value", "google.protobuf.UInt64Value", "google.protobuf.UInt32Value",
         "google.protobuf.BoolValue", "google.protobuf.StringValue", "google.protobuf.BytesValue"
       }
    || fullName == "google.protobuf.FieldMask"
    || fullName == "google.protobuf.Value"
    || fullName == STRUCT
  }

  function ParseField(parse: Parser, kind: Kind, value: string): Option<Value> {
    if kind.Of? && !ParsesMessage(kind.message.fullName) then None else parse(kind, value)
  }

  // --- Resolving a segment ------------------------------------------------------

  function FindName(fs: seq<Field>, s: string): (r: Option<Field>)
    ensures r.Some? ==> r.value in fs && r.value.name == s
    ensures r.None? <==> forall f | f in fs :: f.name != s
  {
    if fs == [] then None else if fs[0].name == s then Some(fs[0]) else FindName(fs[1..], s)
  }

  function FindJson(fs: seq<Field>, s: string): (r: Option<Field>)
    ensures r.Some? ==> r.value in fs && r.value.jsonName == s
    ensures r.None? <==> forall f | f in fs :: f.jsonName != s
  {
    if fs == [] then None else if fs[0].jsonName == s then Some(fs[0]) else FindJson(fs[1..], s)
  }

  function FindNumber(fs: seq<Field>, n: nat): (r: Option<Field>)
    ensures r.Some? ==> r.value in fs && r.value.number == n
    ensures r.None? <==> forall f | f in fs :: f.number != n
  {
    if fs == [] then None else if fs[0].number == n then Some(fs[0]) else FindNumber(fs[1..], n)
  }

  /** A field by its proto name, else by its JSON name. */
  function Lookup(msg: Message, s: string): Option<Field> {
    match FindName(msg.fields, s)
    case Some(f) => Some(f)
    case None => FindJson(msg.fields, s)
  }

  function FirstIndex(s: string, c: char): (k: nat)
    ensures k <= |s| && c !in s[..k] && (k < |s| ==> s[k] == c)
  {
    if s == [] || s[0] == c then 0
    else
      var k := 1 + FirstIndex(s[1..], c);
      assert s[..k] == [s[0]] + s[1..][..k - 1];
      k
  }

  function LastIndex(s: string, c: char): (k: Option<nat>)
    ensures k.Some? ==> k.value < |s| && s[k.value] == c
  {
    if s == [] then None
    else if s[|s| - 1] == c then Some(|s| - 1)
    else LastIndex(s[..|s| - 1], c)
  }

  /** A map key written field[key], or field.key with a single dot. */
  function ParseMapKey(key: string): Option<(string, string)> {
    var start := FirstIndex(key, '[');
    if start < |key| then
      match LastIndex(key, ']')
      case None => None
      case Some(end) =>
        if start == 0 || end <= start || |key| != end + 1 then None
        else Some((key[..start], key[start + 1..end]))
    else
      var parts := Split(key, '.');
      if |parts| != 2 || parts[0] == "" then None else Some((parts[0], parts[1]))
  }

  /** The field a path segment names; list and map suffixes are tried only when no field has that very name. */
  function Resolve(msg: Message, segment: string): Option<Field> {
    if Lookup(msg, segment).Some? then Lookup(msg, segment)
    else if msg.fullName == STRUCT then FindNumber(msg.fields, 1)
    else if |segment| > 2 && segment[|segment| - 2..] == "[]" then Lookup(msg, segment[..|segment| - 2])
    else
      match ParseMapKey(segment)
      case None => None
      case Some(m) => Lookup(msg, m.0)
  }

  // --- Populating ---------------------------------------------------------------

  predicate Siblings(f: Field, g: Field) {
    f.oneof.Some? && f.oneof == g.oneof && f.name != g.name
  }

  /** Another member of the field's oneof is set. */
  predicate Taken(msg: Message, v: Fields, fd: Field) {
    exists k | 0 <= k < |msg.fields| :: Siblings(fd, msg.fields[k]) && msg.fields[k].name in v
  }

  /** The message with the other members of the field's oneof cleared. */
  function Displace(msg: Message, v: Fields, fd: Field): Fields {
    v - set k | 0 <= k < |msg.fields| && Siblings(fd, msg.fields[k]) :: msg.fields[k].name
  }

  function SetField(msg: Message, v: Fields, fd: Field, value: Value): Fields {
    Displace(msg, v, fd)[fd.name := value]
  }

  function PopulateField(parse: Parser, msg: Message, v: Fields, fd: Field, value: string): Bound {
    if value == "" then Bound(v, None)
    else
      match ParseField(parse, fd.kind, value)
      case None => Bound(v, Some(ParseFailed))
      case Some(parsed) => Bound(SetField(msg, v, fd, parsed), None)
  }

  function ParseAll(parse: Parser, kind: Kind, values: seq<string>): Option<seq<Value>> {
    if values == [] then Some([])
    else if ParseField(parse, kind, values[0]).None? || ParseAll(parse, kind, values[1..]).None? then None
    else Some([ParseField(parse, kind, values[0]).value] + ParseAll(parse, kind, values[1..]).value)
  }

  function Items(v: Fields, fd: Field): seq<Value> {
    if fd.name in v && v[fd.name].List? then v[fd.name].items else []
  }

  function PopulateRepeated(parse: Parser, msg: Message, v: Fields, fd: Field, values: seq<string>): Bound {
    match ParseAll(parse, fd.kind, values)
    case None => Bound(v, Some(ListParseFailed(fd.name)))
    case Some(parsed) => Bound(SetField(msg, v, fd, List(Items(v, fd) + parsed)), None)
  }

  function PopulateMap(parse: Parser, msg: Message, v: Fields, fd: Field, joined: string, values: seq<string>): Bound
    requires values != []
  {
    var parts := ParseMapKey(joined);
    if parts.None? then Bound(v, Some(MapKeyFormat))
    else if fd.kind.Plain? then Bound(v, Some(NotAMap(fd.name)))
    else
      var key, value := FindName(fd.kind.message.fields, "key"), FindName(fd.kind.message.fields, "value");
      if key.None? || value.None? then Bound(v, Some(NotAMap(fd.name)))
      else
        var k := ParseField(parse, key.value.kind, parts.value.1);
        var x := ParseField(parse, value.value.kind, values[|values| - 1]);
        if k.None? then Bound(v, Some(MapKeyFailed(fd.name)))
        else if x.None? then Bound(v, Some(MapValueFailed(fd.name)))
        else if !k.value.Basic? then Bound(v, Some(MapKeyFailed(fd.name)))
        else
          var entries := if fd.name in v && v[fd.name].Map? then v[fd.name].entries else map[];
          Bound(SetField(msg, v, fd, Map(entries[k.value.key := x.value])), None)
  }

  /** What the last segment of a path does to the message it is in. */
  function PopulateLeaf(parse: Parser, msg: Message, v: Fields, fd: Field, segment: string, values: seq<string>): Bound
    requires values != []
  {
    if fd.oneof.Some? && Taken(msg, v, fd) then Bound(v, Some(OneofTaken(fd.oneof.value)))
    else if fd.card.Repeated? then PopulateRepeated(parse, msg, v, fd, values)
    else if fd.card.Keyed? then PopulateMap(parse, msg, v, fd, segment, values)
    else if |values| > 1 then Bound(v, Some(TooManyValues(fd.name)))
    else PopulateField(parse, msg, v, fd, values[0])
  }

  /** A member message, allocated if it is not there. */
  function Child(v: Fields, fd: Field): Value {
    if fd.name in v then v[fd.name] else Msg(map[])
  }

  function Populate(parse: Parser, msg: Message, v: Fields, path: seq<string>, values: seq<string>): Bound
    decreases |path|
  {
    if path == [] then Bound(v, Some(NoFieldPath))
    else if values == [] then Bound(v, Some(NoValue))
    else
      match Resolve(msg, path[0])
      case None => Bound(v, None)
      case Some(fd) =>
        if fd.card.Keyed? && |path| == 2 then PopulateMap(parse, msg, v, fd, Join(path, '.'), values)
        else if |path| == 1 then PopulateLeaf(parse, msg, v, fd, path[0], values)
        else if fd.card.Keyed? then PopulateMap(parse, msg, v, fd, path[1], values)
        else if fd.card.Repeated? || fd.kind.Plain? then Bound(v, Some(NotAMessage))
        else
          var child := Child(v, fd);
          var entered := SetField(msg, v, fd, child);
          if !child.Msg? then Bound(entered, Some(NotAMessage))
          else
            var r := Populate(parse, fd.kind.message, child.fields, path[1..], values);
            Bound(entered[fd.name := Msg(r.message)], r.error)
  }

  /** Key after key; the first error stops the binding. */
  function BindAll(parse: Parser, msg: Message, v: Fields, pairs: seq<(string, seq<string>)>): Bound
    decreases |pairs|
  {
    if pairs == [] then Bound(v, None)
    else
      var r := Populate(parse, msg, v, Split(pairs[0].0, '.'), pairs[0].1);
      if r.error.Some? then r else BindAll(parse, msg, r.message, pairs[1..])
  }

  class DynamicMessage {
    const descriptor: Message
    var fields: Fields

    constructor (msg: Message)
      ensures descriptor == msg && fields == map[]
    {
      descriptor, fields := msg, map[];
    }

    method BindForm(parse: Parser, pairs: seq<(string, seq<string>)>) returns (error: Option<Error>)
      modifies this
      ensures Bound(fields, error) == BindAll(parse, descriptor, old(fields), pairs)
    {
      hide Populate, Split;
      var k := 0;
      while k < |pairs|
        invariant 0 <= k <= |pairs|
        invariant BindAll(parse, descriptor, fields, pairs[k..]) == BindAll(parse, descriptor, old(fields), pairs)
      {
        var r := Populate(parse, descriptor, fields, Split(pairs[k].0, '.'), pairs[k].1);
        assert pairs[k..][1..] == pairs[k + 1..];
        fields := r.message;
        if r.error.Some? {
          return r.error;
        }
        k := k + 1;
      }
      error := None;
    }
  }

  // --- The generator's leaf walk ------------------------------------------------

  /** The messages the generator plans as leaves: its list, in its order. */
  predicate WellKnown(fullName: string) {
    fullName in {
      "google.protobuf.Timestamp", "google.protobuf.Duration", "google.protobuf.FieldMask",
      "google.protobuf.Struct", "google.protobuf.Value", "google.protobuf.DoubleValue",
      "google.protobuf.FloatValue", "google.protobuf.Int64Value", "google.protobuf.Int32Value",
      "google.protobuf.UInt64Value", "google.protobuf.UInt32Value", "google.protobuf.BoolValue",
      "google.protobuf.StringValue", "google.protobuf.BytesValue"
    }
  }

  /** The generator's list and the binder's list name the same messages: these fourteen. */
  lemma ListsAgree(fullName: string)
    ensures WellKnown(fullName) <==> ParsesMessage(fullName)
    ensures ParsesMessage(fullName) <==>
      fullName in {
        "google.protobuf.BoolValue", "google.protobuf.BytesValue", "google.protobuf.DoubleValue",
        "google.protobuf.Duration", "google.protobuf.FieldMask", "google.protobuf.FloatValue",
        "google.protobuf.Int32Value", "google.protobuf.Int64Value", "google.protobuf.StringValue",
        "google.protobuf.Struct", "google.protobuf.Timestamp", "google.protobuf.UInt32Value",
        "google.protobuf.UInt64Value", "google.protobuf.Value"
      }
  {
  }

  /** A message member that the walk goes into rather than listing it. */
  predicate Traversed(f: Field): (yes: bool)
    ensures yes ==> f.kind.Of?
  {
    f.card.Singular? && f.kind.Of? && !WellKnown(f.kind.message.fullName)
  }

  function Prefixed(f: Field, paths: seq<seq<Field>>): (r: seq<seq<Field>>)
    ensures |r| == |paths| && forall k | 0 <= k < |r| :: r[k] == [f] + paths[k]
  {
    seq(|paths|, k requires 0 <= k < |paths| => [f] + paths[k])
  }

  /** The paths of the leaves below these fields, in walking order. */
  function LeafPaths(fs: seq<Field>): (paths: seq<seq<Field>>)
    ensures forall k | 0 <= k < |paths| :: paths[k] != []
  {
    if fs == [] then []
    else PathsOf(fs[0]) + LeafPaths(fs[1..])
  }

  function PathsOf(f: Field): (paths: seq<seq<Field>>)
    ensures forall k | 0 <= k < |paths| :: paths[k] != []
  {
    if Traversed(f) then Prefixed(f, LeafPaths(f.kind.message.fields)) else [[f]]
  }

  datatype Planned = Bindable(kind: Kind) | Unsupported

  datatype LeafData = LeafData(pathJson: string, pathProto: string, kind: Planned, repeated: bool,
                               keyed: Option<(Planned, Planned)>, oneof: Option<string>)

  function Plan(kind: Kind): Planned {
    if kind.Of? && !WellKnown(kind.message.fullName) then Unsupported else Bindable(kind)
  }

  function MapPlan(kind: Kind): (Planned, Planned) {
    if kind.Plain? then (Unsupported, Unsupported)
    else
      var key, value := FindName(kind.message.fields, "key"), FindName(kind.message.fields, "value");
      (if key.None? then Unsupported else Plan(key.value.kind),
       if value.None? then Unsupported else Plan(value.value.kind))
  }

  function JsonNames(names: seq<(string, string)>): (r: seq<string>)
    ensures |r| == |names|
  {
    seq(|names|, k requires 0 <= k < |names| => names[k].0)
  }

  function ProtoNames(names: seq<(string, string)>): (r: seq<string>)
    ensures |r| == |names|
  {
    seq(|names|, k requires 0 <= k < |names| => names[k].1)
  }

  function Names(path: seq<Field>): (r: seq<(string, string)>)
    ensures |r| == |path|
  {
    seq(|path|, k requires 0 <= k < |path| => (path[k].jsonName, path[k].name))
  }

  /** The leaf a field is at the end of these names. */
  function LeafAt(names: seq<(string, string)>, f: Field): LeafData
    requires names != []
  {
    LeafData(Join(JsonNames(names), '.'), Join(ProtoNames(names), '.'),
             if f.card.Keyed? then Unsupported else Plan(f.kind), f.card.Repeated?,
             if f.card.Keyed? then Some(MapPlan(f.kind)) else None, f.oneof)
  }

  function Describe(path: seq<Field>): LeafData
    requires path != []
  {
    LeafAt(Names(path), path[|path| - 1])
  }

  /** The leaves of these paths, all below the same one. */
  ghost function DescribeAll(above: seq<Field>, paths: seq<seq<Field>>): (r: seq<LeafData>)
    requires forall k | 0 <= k < |paths| :: paths[k] != []
    ensures |r| == |paths|
  {
    seq(|paths|, k requires 0 <= k < |paths| => Describe(above + paths[k]))
  }

  lemma DescribeOne(above: seq<Field>, f: Field)
    ensures DescribeAll(above, [[f]]) == [LeafAt(Names(above + [f]), f)]
  {
    assert above + [f] == above + [[f]][0];
  }

  lemma DescribePrefixed(above: seq<Field>, f: Field, paths: seq<seq<Field>>)
    requires forall k | 0 <= k < |paths| :: paths[k] != []
    ensures DescribeAll(above, Prefixed(f, paths)) == DescribeAll(above + [f], paths)
  {
    forall k | 0 <= k < |paths| ensures above + Prefixed(f, paths)[k] == above + [f] + paths[k] {
    }
  }

  lemma DescribeConcat(above: seq<Field>, a: seq<seq<Field>>, b: seq<seq<Field>>)
    requires forall k | 0 <= k < |a| :: a[k] != []
    requires forall k | 0 <= k < |b| :: b[k] != []
    ensures DescribeAll(above, a + b) == DescribeAll(above, a) + DescribeAll(above, b)
  {
  }

  lemma WalkStep(above: seq<Field>, f: Field, rest: seq<Field>)
    ensures DescribeAll(above, LeafPaths([f] + rest))
         == DescribeAll(above, PathsOf(f)) + DescribeAll(above, LeafPaths(rest))
  {
    hide LeafPaths, PathsOf, Describe, DescribeAll;
    assert ([f] + rest)[1..] == rest;
    UnfoldPaths([f] + rest);
    DescribeConcat(above, PathsOf(f), LeafPaths(rest));
  }

  lemma UnfoldPaths(fs: seq<Field>)
    requires fs != []
    ensures LeafPaths(fs) == PathsOf(fs[0]) + LeafPaths(fs[1..])
  {
  }

  class LeafWalker {
    var path: seq<(string, string)>
    var out: seq<LeafData>

    constructor ()
      ensures path == [] && out == []
    {
      path, out := [], [];
    }

    /** Lists a message's leaves in order, each under the path walked to it, and leaves the path as it was. */
    method Walk(msg: Message, ghost above: seq<Field>)
      requires path == Names(above)
      modifies this
      ensures path == old(path)
      ensures out == old(out) + DescribeAll(above, LeafPaths(msg.fields))
      decreases msg
    {
      hide LeafPaths, DescribeAll, LeafAt, WellKnown;
      var k := 0;
      assert msg.fields[0..] == msg.fields;
      while k < |msg.fields|
        invariant 0 <= k <= |msg.fields| && path == old(path)
        invariant out + DescribeAll(above, LeafPaths(msg.fields[k..]))
                  == old(out) + DescribeAll(above, LeafPaths(msg.fields))
      {
        var field := msg.fields[k];
        ghost var before, rest := out, msg.fields[k + 1..];
        assert msg.fields[k..] == [field] + rest;
        WalkStep(above, field, rest);
        path := path + [(field.jsonName, field.name)];
        assert path == Names(above + [field]);
        if Traversed(field) {
          Walk(field.kind.message, above + [field]);
          DescribePrefixed(above, field, LeafPaths(field.kind.message.fields));
        } else {
          out := out + [LeafAt(path, field)];
          DescribeOne(above, field);
        }
        assert out == before + DescribeAll(above, PathsOf(field));
        path := path[..|path| - 1];
        k := k + 1;
      }
      NoPaths(above, msg.fields[k..]);
      assert out + [] == out;
    }
  }

  lemma NoPaths(above: seq<Field>, fs: seq<Field>)
    requires fs == []
    ensures DescribeAll(above, LeafPaths(fs)) == []
  {
  }

  // --- The plan and the binder agree --------------------------------------------

  /** What a descriptor pool guarantees: no two fields of one message share a proto name or a JSON name. */
  ghost predicate Unique(fs: seq<Field>) {
    && (forall i, j | 0 <= i < j < |fs| :: fs[i].name != fs[j].name && fs[i].jsonName != fs[j].jsonName)
    && forall i | 0 <= i < |fs| && fs[i].kind.Of? :: Unique(fs[i].kind.message.fields)
  }

  ghost predicate IsLeafPath(fs: seq<Field>, p: seq<Field>)
    decreases |p|
  {
    && p != [] && p[0] in fs
    && if |p| == 1 then !Traversed(p[0]) else Traversed(p[0]) && IsLeafPath(p[0].kind.message.fields, p[1..])
  }

  lemma PrefixedIff(f: Field, below: seq<seq<Field>>, p: seq<Field>)
    ensures p in Prefixed(f, below) <==> p != [] && p[0] == f && p[1..] in below
  {
    var paths := Prefixed(f, below);
    if p in paths {
      var k :| 0 <= k < |paths| && paths[k] == p;
      assert p == [f] + below[k] && p[1..] == below[k];
    }
    if p != [] && p[0] == f && p[1..] in below {
      var k :| 0 <= k < |below| && below[k] == p[1..];
      assert paths[k] == [f] + p[1..] == p;
    }
  }

  /** The walk lists the paths to the fields it does not go into, and no others. */
  lemma {:induction false} LeafPathsIff(fs: seq<Field>, p: seq<Field>)
    ensures p in LeafPaths(fs) <==> IsLeafPath(fs, p)
    decreases fs
  {
    hide Traversed, Prefixed;
    if fs != [] {
      var f, rest := fs[0], fs[1..];
      LeafPathsIff(rest, p);
      UnfoldPaths(fs);
      assert p in LeafPaths(fs) <==> p in PathsOf(f) || p in LeafPaths(rest);
      assert p != [] ==> (p[0] in fs <==> p[0] == f || p[0] in rest);
      if p != [] && Traversed(f) {
        var below := f.kind.message.fields;
        LeafPathsIff(below, p[1..]);
        PrefixedIff(f, LeafPaths(below), p);
      } else if Traversed(f) {
        PrefixedIff(f, LeafPaths(f.kind.message.fields), p);
      } else {
        assert p in [[f]] <==> p == [f];
        assert |p| == 1 ==> (p == [f] <==> p[0] == f);
      }
    }
  }

  /** A spelling of a path: each segment the field's proto name or its JSON name. */
  ghost predicate Spells(segments: seq<string>, p: seq<Field>) {
    |segments| == |p| && forall k | 0 <= k < |p| :: segments[k] == p[k].name || segments[k] == p[k].jsonName
  }

  /** No other field of the message has the segment as its proto name. */
  ghost predicate Clear(fs: seq<Field>, f: Field, segment: string) {
    forall g | g in fs && g.name == segment :: g == f
  }

  ghost predicate AllClear(fs: seq<Field>, p: seq<Field>, segments: seq<string>)
    requires |segments| == |p|
    decreases |p|
  {
    p == [] || (Clear(fs, p[0], segments[0])
                && (p[0].kind.Of? ==> AllClear(p[0].kind.message.fields, p[1..], segments[1..])))
  }

  lemma {:induction false} FindOwn(fs: seq<Field>, f: Field)
    requires Unique(fs) && f in fs
    ensures FindName(fs, f.name) == Some(f) && FindJson(fs, f.jsonName) == Some(f)
  {
    if fs[0] != f {
      var k :| 0 < k < |fs| && fs[k] == f;
      assert fs[1..][k - 1] == f;
      assert fs[0].name != fs[k].name && fs[0].jsonName != fs[k].jsonName;
      assert forall i | 0 <= i < |fs[1..]| :: fs[1..][i] == fs[i + 1];
      FindOwn(fs[1..], f);
    }
  }

  /** A spelling finds its field, unless it is another field's proto name: proto names come first. */
  lemma ResolvesIff(msg: Message, f: Field, segment: string)
    requires Unique(msg.fields) && f in msg.fields && segment in {f.name, f.jsonName}
    ensures Resolve(msg, segment) == Some(f) <==> Clear(msg.fields, f, segment)
  {
    FindOwn(msg.fields, f);
    if FindName(msg.fields, segment).Some? {
      FindOwn(msg.fields, FindName(msg.fields, segment).value);
    }
  }

  /** The fields that path segments lead to, through singular messages. */
  function Follow(msg: Message, segments: seq<string>): Option<seq<Field>>
    decreases |segments|
  {
    if segments == [] then None
    else
      match Resolve(msg, segments[0])
      case None => None
      case Some(fd) =>
        if |segments| == 1 then Some([fd])
        else if !fd.card.Singular? || fd.kind.Plain? then None
        else
          match Follow(fd.kind.message, segments[1..])
          case None => None
          case Some(rest) => Some([fd] + rest)
  }

  /** Every planned leaf is reached as exactly its field, by any spelling no other field's proto name captures. */
  lemma {:induction false} FollowsIff(msg: Message, p: seq<Field>, segments: seq<string>)
    requires Unique(msg.fields) && IsLeafPath(msg.fields, p) && Spells(segments, p)
    ensures Follow(msg, segments) == Some(p) <==> AllClear(msg.fields, p, segments)
    decreases |p|
  {
    hide Resolve, WellKnown;
    var f := p[0];
    ResolvesIff(msg, f, segments[0]);
    assert p == [f] + p[1..];
    if |p| == 1 {
      assert p == [f] && p[1..] == [] && segments[1..] == [];
      assert AllClear(msg.fields, p, segments) <==> Clear(msg.fields, f, segments[0]);
      assert Follow(msg, segments) == Some(p) <==> Resolve(msg, segments[0]) == Some(f);
    } else {
      FollowsIff(f.kind.message, p[1..], segments[1..]);
      assert AllClear(msg.fields, p, segments)
        <==> Clear(msg.fields, f, segments[0]) && AllClear(f.kind.message.fields, p[1..], segments[1..]);
      assert Follow(msg, segments) == Some(p)
        <==> Resolve(msg, segments[0]) == Some(f) && Follow(f.kind.message, segments[1..]) == Some(p[1..]);
    }
  }

  // --- What a reached leaf does -------------------------------------------------

  /** Binding values at a path of fields. */
  function Store(parse: Parser, msg: Message, v: Fields, p: seq<Field>, values: seq<string>): Bound
    requires p != [] && values != [] && !p[|p| - 1].card.Keyed?
    requires forall k | 0 <= k < |p| - 1 :: p[k].card.Singular? && p[k].kind.Of?
    decreases |p|
  {
    if |p| == 1 then PopulateLeaf(parse, msg, v, p[0], "", values)
    else
      var entered := SetField(msg, v, p[0], Child(v, p[0]));
      if !Child(v, p[0]).Msg? then Bound(entered, Some(NotAMessage))
      else
        var r := Store(parse, p[0].kind.message, Child(v, p[0]).fields, p[1..], values);
        Bound(entered[p[0].name := Msg(r.message)], r.error)
  }

  ghost predicate Descends(p: seq<Field>) {
    p != [] && forall k | 0 <= k < |p| - 1 :: p[k].card.Singular? && p[k].kind.Of?
  }

  lemma {:induction false} FollowDescends(msg: Message, segments: seq<string>)
    ensures Follow(msg, segments).Some? ==>
              Descends(Follow(msg, segments).value) && |Follow(msg, segments).value| == |segments|
    decreases |segments|
  {
    hide Resolve;
    if segments != [] && Resolve(msg, segments[0]).Some? && Resolve(msg, segments[0]).value.kind.Of? {
      FollowDescends(Resolve(msg, segments[0]).value.kind.message, segments[1..]);
    }
  }

  /** Populating along segments is storing at the fields they lead to. */
  lemma {:induction false} PopulateIsStore(parse: Parser, msg: Message, v: Fields, segments: seq<string>,
                                           p: seq<Field>, values: seq<string>)
    requires Follow(msg, segments) == Some(p) && Descends(p) && !p[|p| - 1].card.Keyed? && values != []
    ensures Populate(parse, msg, v, segments, values) == Store(parse, msg, v, p, values)
    decreases |segments|
  {
    hide Resolve, PopulateMap, PopulateRepeated, PopulateField, SetField, Taken;
    if |segments| > 1 {
      var f := p[0];
      if Child(v, f).Msg? {
        PopulateIsStore(parse, f.kind.message, Child(v, f).fields, segments[1..], p[1..], values);
      }
    }
  }

  /** The key made of a leaf's segments binds exactly at that leaf. */
  lemma LeafKeyBinds(parse: Parser, msg: Message, v: Fields, p: seq<Field>, segments: seq<string>, values: seq<string>)
    requires Unique(msg.fields) && IsLeafPath(msg.fields, p) && Spells(segments, p) && AllClear(msg.fields, p, segments)
    requires (forall k | 0 <= k < |segments| :: '.' !in segments[k]) && !p[|p| - 1].card.Keyed? && values != []
    ensures Descends(p)
    ensures BindAll(parse, msg, v, [(Join(segments, '.'), values)]) == Store(parse, msg, v, p, values)
  {
    hide Populate, Store, Split, Follow;
    FollowsIff(msg, p, segments);
    FollowDescends(msg, segments);
    PopulateIsStore(parse, msg, v, segments, p, values);
    assert forall s | s in segments :: '.' !in s;
    SplitJoin(segments, '.');
    var pairs := [(Join(segments, '.'), values)];
    assert pairs[1..] == [];
  }

  /** Different leaves have different keys, however each is spelled. */
  lemma LeafKeysDiffer(msg: Message, p: seq<Field>, q: seq<Field>, ps: seq<string>, qs: seq<string>)
    requires Unique(msg.fields) && IsLeafPath(msg.fields, p) && IsLeafPath(msg.fields, q)
    requires Spells(ps, p) && AllClear(msg.fields, p, ps) && Spells(qs, q) && AllClear(msg.fields, q, qs)
    requires forall k | 0 <= k < |ps| :: '.' !in ps[k]
    requires forall k | 0 <= k < |qs| :: '.' !in qs[k]
    ensures Join(ps, '.') == Join(qs, '.') <==> p == q && ps == qs
  {
    hide Split, Follow;
    assert forall s | s in ps :: '.' !in s;
    assert forall s | s in qs :: '.' !in s;
    SplitJoin(ps, '.');
    SplitJoin(qs, '.');
    FollowsIff(msg, p, ps);
    FollowsIff(msg, q, qs);
  }

  predicate Refuses(parse: Parser, kind: Kind, value: string) {
    ParseField(parse, kind, value).None?
  }

  ghost predicate RefusesAlways(kind: Kind) {
    forall parse: Parser, value: string :: Refuses(parse, kind, value)
  }

  /** The generator calls a leaf unsupported exactly when the binder refuses every value for it. */
  lemma UnsupportedIff(p: seq<Field>)
    requires p != [] && !p[|p| - 1].card.Keyed?
    ensures Describe(p).kind.Unsupported? <==> RefusesAlways(p[|p| - 1].kind)
  {
    hide WellKnown, ParsesMessage;
    var kind := p[|p| - 1].kind;
    if kind.Of? {
      ListsAgree(kind.message.fullName);
    }
    if Describe(p).kind.Bindable? {
      var accept: Parser := (k, s) => Some(Other(s));
      assert !Refuses(accept, kind, "");
    }
  }
}
