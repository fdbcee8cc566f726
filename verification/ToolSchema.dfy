/** The portable tool schema, the JSON values it accepts, and how it is built from
    a graph of message descriptors that may be cyclic. */
module ToolSchema {
  import opened Common

  datatype Json = Null | Bool(b: bool) | Num(n: real) | Str(s: string) | Arr(items: seq<Json>) | Obj(fields: map<string, Json>)

  datatype JsonType = ObjectT | ArrayT | StringT | BooleanT | IntegerT | NumberT

  /** Undeclared properties: none, any with a typed value (a proto map), or as the flag says. */
  datatype Extra = Closed | Typed(value: Schema) | Free(open: bool)

  datatype Schema = Schema(typ: JsonType, desc: string, props: map<string, Schema>, required: seq<string>,
                           items: Option<Schema>, enum: seq<string>, extra: Extra,
                           oneofMembers: set<string>, nonNullable: set<string>)

  function Leaf(typ: JsonType): Schema {
    Schema(typ, "", map[], [], None, [], Closed, {}, {})
  }

  predicate TypeOk(t: JsonType, v: Json) {
    match t
    case ObjectT => v.Obj?
    case ArrayT => v.Arr?
    case StringT => v.Str?
    case BooleanT => v.Bool?
    case IntegerT => v.Num? && v.n.Floor as real == v.n
    case NumberT => v.Num?
  }

  /** The values a schema accepts. */
  predicate Accepts(s: Schema, v: Json)
    decreases v
  {
    && TypeOk(s.typ, v)
    && (s.enum != [] ==> v.Str? && v.s in s.enum)
    && (v.Arr? && s.items.Some? ==> forall i | 0 <= i < |v.items| :: Accepts(s.items.value, v.items[i]))
    && (v.Obj? ==> forall k | k in s.required :: k in v.fields)
    && (v.Obj? ==> forall k | k in v.fields ::
         if k in s.props then Accepts(s.props[k], v.fields[k])
         else match s.extra
           case Closed => false
           case Typed(t) => Accepts(t, v.fields[k])
           case Free(open) => open)
  }

  // ---------------------------------------------------------------------------
  // Descriptors
  // ---------------------------------------------------------------------------

  const MAX_DEPTH: nat := 8

  datatype Kind =
    | BoolKind | Int32Kind | Int64Kind | FloatKind | StringKind | BytesKind
    | EnumKind(values: seq<string>) | MessageKind(name: TypeName) | OtherKind

  /** Full name of a message: a well-known one of google.protobuf, or any other. */
  datatype TypeName =
    | Timestamp | Duration | BoolValue | Int32Value | UInt32Value | Int64Value | UInt64Value
    | FloatValue | DoubleValue | StringValue | BytesValue | FieldMask | Struct | Value | Any
    | Named(fullName: string)

  /** A list repeats the kind; a map has it as its value kind. */
  datatype Shape = Singular | List | MapOf

  datatype AiField = AiField(description: string, required: bool)

  datatype Ignore = IgnoreUnspecified | IgnoreIfZeroValue | IgnoreAlways

  datatype Rules = Rules(ignore: Ignore, required: bool, stringMinLen: nat, bytesMinLen: nat)

  datatype Field = Field(jsonName: string, shape: Shape, kind: Kind, ai: Option<AiField>, rules: Option<Rules>, hasPresence: bool)

  datatype Oneof = Oneof(synthetic: bool, members: seq<nat>)

  datatype Message = Message(fields: seq<Field>, oneofs: seq<Oneof>)

  type Graph = map<TypeName, Message>

  datatype Fault = TooDeep(name: TypeName) | UnsupportedType(name: TypeName)

  datatype Result = Ok(schema: Schema) | Err(fault: Fault)

  /** Messages with a JSON form of their own: a schema, or a refusal. */
  function WellKnown(name: TypeName): Option<Result> {
    match name
    case Named(_) => None
    case Value => Some(Err(UnsupportedType(name)))
    case Any => Some(Err(UnsupportedType(name)))
    case Struct => Some(Ok(Leaf(ObjectT).(extra := Free(true))))
    case FieldMask => Some(Ok(Leaf(StringT).(desc := "Comma-separated protobuf field paths, e.g. foo.bar,baz.")))
    case BoolValue => Some(Ok(Leaf(BooleanT)))
    case Int32Value => Some(Ok(Leaf(IntegerT)))
    case UInt32Value => Some(Ok(Leaf(IntegerT)))
    case FloatValue => Some(Ok(Leaf(NumberT)))
    case DoubleValue => Some(Ok(Leaf(NumberT)))
    case _ => Some(Ok(Leaf(StringT)))
  }

  /** References resolve, and oneofs list fields of their own message. */
  ghost predicate GraphOk(g: Graph) {
    && (forall m, i | m in g && 0 <= i < |g[m].fields| ::
         var kind := g[m].fields[i].kind;
         kind.MessageKind? && WellKnown(kind.name).None? ==> kind.name in g)
    && (forall m, i, j | m in g && 0 <= i < |g[m].oneofs| && 0 <= j < |g[m].oneofs[i].members| ::
         g[m].oneofs[i].members[j] < |g[m].fields|)
  }

  /** Whether validation rules already refuse an unset value. */
  predicate ValidateRequires(f: Field) {
    && f.rules.Some?
    && f.rules.value.ignore == IgnoreUnspecified
    && (f.rules.value.required ||
        (!f.hasPresence && f.shape == Singular && (f.rules.value.stringMinLen >= 1 || f.rules.value.bytesMinLen >= 1)))
  }

  // ---------------------------------------------------------------------------
  // Building the schema
  // ---------------------------------------------------------------------------

  /** The schema of a message with one more field. */
  function AddField(s: Schema, f: Field, fs: Schema): Schema {
    var described := if f.ai.Some? && f.ai.value.description != "" then fs.(desc := f.ai.value.description) else fs;
    s.(required := if f.ai.Some? && f.ai.value.required then s.required + [f.jsonName] else s.required,
       nonNullable := if ValidateRequires(f) then s.nonNullable + {f.jsonName} else s.nonNullable,
       props := s.props[f.jsonName := described])
  }

  function MemberNames(m: Message, members: seq<nat>): set<string> {
    set j | 0 <= j < |members| && members[j] < |m.fields| :: m.fields[members[j]].jsonName
  }

  /** Names of the fields that belong to one of the first n oneofs, if it is a real one. */
  function RealMembers(m: Message, n: nat): set<string>
    requires n <= |m.oneofs|
  {
    if n == 0 then {} else
    RealMembers(m, n - 1) + (if m.oneofs[n - 1].synthetic then {} else MemberNames(m, m.oneofs[n - 1].members))
  }

  function ForMessage(g: Graph, name: TypeName, depth: nat): Result
    requires GraphOk(g) && name in g && depth <= MAX_DEPTH
    decreases MAX_DEPTH - depth, 0, 0
  {
    if depth >= MAX_DEPTH then Err(TooDeep(name)) else
    match ForFields(g, name, depth, |g[name].fields|)
    case Err(f) => Err(f)
    case Ok(s) => Ok(s.(oneofMembers := RealMembers(g[name], |g[name].oneofs|)))
  }

  /** The object schema with the first n fields. */
  function ForFields(g: Graph, name: TypeName, depth: nat, n: nat): Result
    requires GraphOk(g) && name in g && depth < MAX_DEPTH && n <= |g[name].fields|
    decreases MAX_DEPTH - depth - 1, 4, n
  {
    if n == 0 then Ok(Leaf(ObjectT)) else
    match ForFields(g, name, depth, n - 1)
    case Err(f) => Err(f)
    case Ok(s) =>
      var f := g[name].fields[n - 1];
      match ForField(g, f, depth + 1)
      case Err(fault) => Err(fault)
      case Ok(fs) => Ok(AddField(s, f, fs))
  }

  predicate KindOk(g: Graph, kind: Kind) {
    kind.MessageKind? && WellKnown(kind.name).None? ==> kind.name in g
  }

  function ForField(g: Graph, f: Field, depth: nat): Result
    requires GraphOk(g) && KindOk(g, f.kind) && depth <= MAX_DEPTH
    decreases MAX_DEPTH - depth, 3, 0
  {
    match ForSingular(g, f.kind, depth)
    case Err(fault) => Err(fault)
    case Ok(s) =>
      match f.shape
      case MapOf => Ok(Leaf(ObjectT).(extra := Typed(s)))
      case List => Ok(Leaf(ArrayT).(items := Some(s)))
      case Singular => Ok(s)
  }

  function ForSingular(g: Graph, kind: Kind, depth: nat): Result
    requires GraphOk(g) && KindOk(g, kind) && depth <= MAX_DEPTH
    decreases MAX_DEPTH - depth, 2, 0
  {
    match kind
    case BoolKind => Ok(Leaf(BooleanT))
    case Int32Kind => Ok(Leaf(IntegerT))
    case Int64Kind => Ok(Leaf(StringT))
    case FloatKind => Ok(Leaf(NumberT))
    case StringKind => Ok(Leaf(StringT))
    case BytesKind => Ok(Leaf(StringT))
    case EnumKind(values) => Ok(Leaf(StringT).(enum := values))
    case MessageKind(name) => ForWellKnownOrMessage(g, name, depth)
    case OtherKind => Ok(Leaf(StringT))
  }

  function ForWellKnownOrMessage(g: Graph, name: TypeName, depth: nat): Result
    requires GraphOk(g) && KindOk(g, MessageKind(name)) && depth <= MAX_DEPTH
    decreases MAX_DEPTH - depth, 1, 0
  {
    match WellKnown(name)
    case Some(r) => r
    case None => ForMessage(g, name, depth)
  }

  method OneofMembers(md: Message) returns (members: set<string>)
    ensures members == RealMembers(md, |md.oneofs|)
  {
    members := {};
    var i := 0;
    while i < |md.oneofs|
      invariant 0 <= i <= |md.oneofs|
      invariant members == RealMembers(md, i)
    {
      if !md.oneofs[i].synthetic {
        members := members + MemberNames(md, md.oneofs[i].members);
      }
      i := i + 1;
    }
  }

  lemma {:induction false} FaultStops(g: Graph, name: TypeName, depth: nat, n: nat)
    requires GraphOk(g) && name in g && depth < MAX_DEPTH && n <= |g[name].fields|
    requires ForFields(g, name, depth, n).Err?
    ensures ForFields(g, name, depth, |g[name].fields|) == ForFields(g, name, depth, n)
    decreases |g[name].fields| - n
  {
    if n < |g[name].fields| {
      FaultStops(g, name, depth, n + 1);
    }
  }

  /** schemaForMessage, filling in properties field by field. */
  method SchemaForMessage(g: Graph, name: TypeName, depth: nat) returns (r: Result)
    requires GraphOk(g) && name in g && depth <= MAX_DEPTH
    ensures r == ForMessage(g, name, depth)
  {
    if depth >= MAX_DEPTH {
      return Err(TooDeep(name));
    }
    var md := g[name];
    var s := Leaf(ObjectT);
    var i := 0;
    while i < |md.fields|
      invariant 0 <= i <= |md.fields|
      invariant ForFields(g, name, depth, i) == Ok(s)
    {
      var f := md.fields[i];
      var fr := ForField(g, f, depth + 1);
      if fr.Err? {
        FaultStops(g, name, depth, i + 1);
        return fr;
      }
      var fs := fr.schema;
      if f.ai.Some? {
        if f.ai.value.description != "" {
          fs := fs.(desc := f.ai.value.description);
        }
        if f.ai.value.required {
          s := s.(required := s.required + [f.jsonName]);
        }
      }
      if ValidateRequires(f) {
        s := s.(nonNullable := s.nonNullable + {f.jsonName});
      }
      s := s.(props := s.props[f.jsonName := fs]);
      i := i + 1;
    }
    var members := OneofMembers(md);
    return Ok(s.(oneofMembers := members));
  }

  // ---------------------------------------------------------------------------
  // When building succeeds
  // ---------------------------------------------------------------------------

  /** Messages that a message nests, directly or through lists and map values. */
  ghost function Nested(g: Graph, m: TypeName): set<TypeName>
    requires m in g
  {
    set i | 0 <= i < |g[m].fields| && g[m].fields[i].kind.MessageKind? && WellKnown(g[m].fields[i].kind.name).None? ::
      g[m].fields[i].kind.name
  }

  /** The message has a field of a type that the schema subset cannot express. */
  ghost predicate Poisoned(g: Graph, m: TypeName) {
    m in g && exists i | 0 <= i < |g[m].fields| ::
      g[m].fields[i].kind.MessageKind? &&
      g[m].fields[i].kind.name in {Value, Any}
  }

  /** c is a chain of messages, each nested in the one before. */
  ghost predicate IsChain(g: Graph, c: seq<TypeName>) {
    && c != []
    && c[0] in g
    && (|c| > 1 ==> c[1] in Nested(g, c[0]) && IsChain(g, c[1..]))
  }

  /** No chain from m is longer than the depth left, and none ends in a poisoned message. */
  ghost predicate ChainsFit(g: Graph, m: TypeName, depth: nat) {
    forall c | IsChain(g, c) && c[0] == m :: |c| <= MAX_DEPTH - depth && !Poisoned(g, c[|c| - 1])
  }

  ghost predicate Fits(g: Graph, m: TypeName, depth: nat)
    requires GraphOk(g) && m in g && depth <= MAX_DEPTH
    decreases MAX_DEPTH - depth
  {
    depth < MAX_DEPTH && !Poisoned(g, m) && forall t | t in Nested(g, m) :: t in g && Fits(g, t, depth + 1)
  }

  lemma SingularOk(g: Graph, kind: Kind, depth: nat)
    requires GraphOk(g) && KindOk(g, kind) && depth <= MAX_DEPTH
    ensures !kind.MessageKind? ==> ForSingular(g, kind, depth).Ok?
    ensures kind.MessageKind? ==>
      ForSingular(g, kind, depth) ==
        if WellKnown(kind.name).Some? then WellKnown(kind.name).value else ForMessage(g, kind.name, depth)
  {
    if kind.MessageKind? {
      assert ForSingular(g, kind, depth) == ForWellKnownOrMessage(g, kind.name, depth);
    }
  }

  lemma {:induction false} FieldsFit(g: Graph, m: TypeName, depth: nat, n: nat)
    requires GraphOk(g) && m in g && depth < MAX_DEPTH && n <= |g[m].fields|
    ensures ForFields(g, m, depth, n).Ok? <==>
      forall i | 0 <= i < n :: ForField(g, g[m].fields[i], depth + 1).Ok?
    decreases n
  {
    if n > 0 {
      FieldsFit(g, m, depth, n - 1);
    }
  }

  ghost predicate FieldFits(g: Graph, m: TypeName, i: nat, depth: nat)
    requires GraphOk(g) && m in g && i < |g[m].fields| && depth < MAX_DEPTH
  {
    var kind := g[m].fields[i].kind;
    kind.MessageKind? ==>
      && kind.name !in {Value, Any}
      && (WellKnown(kind.name).None? ==> Fits(g, kind.name, depth + 1))
  }

  lemma FieldFitsExactly(g: Graph, m: TypeName, i: nat, depth: nat)
    requires GraphOk(g) && m in g && i < |g[m].fields| && depth < MAX_DEPTH
    ensures ForField(g, g[m].fields[i], depth + 1).Ok? <==> FieldFits(g, m, i, depth)
    decreases MAX_DEPTH - depth - 1, 1
  {
    var f := g[m].fields[i];
    SingularOk(g, f.kind, depth + 1);
    assert ForField(g, f, depth + 1).Ok? <==> ForSingular(g, f.kind, depth + 1).Ok?;
    if f.kind.MessageKind? && WellKnown(f.kind.name).None? {
      MessageFits(g, f.kind.name, depth + 1);
    }
  }

  lemma AllFieldsFit(g: Graph, m: TypeName, depth: nat)
    requires GraphOk(g) && m in g && depth < MAX_DEPTH
    ensures (forall i | 0 <= i < |g[m].fields| :: FieldFits(g, m, i, depth)) <==> Fits(g, m, depth)
  {
    if forall i | 0 <= i < |g[m].fields| :: FieldFits(g, m, i, depth) {
      forall i | 0 <= i < |g[m].fields| && g[m].fields[i].kind.MessageKind?
        ensures g[m].fields[i].kind.name !in {Value, Any}
      {
        assert FieldFits(g, m, i, depth);
      }
      forall t | t in Nested(g, m)
        ensures t in g && Fits(g, t, depth + 1)
      {
        var i :| 0 <= i < |g[m].fields| && g[m].fields[i].kind.MessageKind? &&
          WellKnown(g[m].fields[i].kind.name).None? && g[m].fields[i].kind.name == t;
        assert FieldFits(g, m, i, depth);
      }
    }
    if Fits(g, m, depth) {
      forall i | 0 <= i < |g[m].fields|
        ensures FieldFits(g, m, i, depth)
      {
        var kind := g[m].fields[i].kind;
        if kind.MessageKind? && WellKnown(kind.name).None? {
          assert kind.name in Nested(g, m);
        }
      }
    }
  }

  lemma {:induction false} MessageFits(g: Graph, m: TypeName, depth: nat)
    requires GraphOk(g) && m in g && depth <= MAX_DEPTH
    ensures ForMessage(g, m, depth).Ok? <==> Fits(g, m, depth)
    decreases MAX_DEPTH - depth, 0
  {
    if depth < MAX_DEPTH {
      var fields := g[m].fields;
      FieldsFit(g, m, depth, |fields|);
      forall i | 0 <= i < |fields|
        ensures ForField(g, fields[i], depth + 1).Ok? <==> FieldFits(g, m, i, depth)
      {
        FieldFitsExactly(g, m, i, depth);
      }
      AllFieldsFit(g, m, depth);
      assert ForMessage(g, m, depth).Ok? <==> ForFields(g, m, depth, |fields|).Ok?;
    }
  }

  lemma {:induction false} FitsBoundsChains(g: Graph, m: TypeName, depth: nat, c: seq<TypeName>)
    requires GraphOk(g) && m in g && depth <= MAX_DEPTH && Fits(g, m, depth)
    requires IsChain(g, c) && c[0] == m
    ensures |c| <= MAX_DEPTH - depth && !Poisoned(g, c[|c| - 1])
    decreases MAX_DEPTH - depth
  {
    if |c| > 1 {
      FitsBoundsChains(g, c[1], depth + 1, c[1..]);
    }
  }

  lemma ChainsFitNested(g: Graph, m: TypeName, depth: nat, t: TypeName)
    requires m in g && ChainsFit(g, m, depth) && t in Nested(g, m)
    ensures ChainsFit(g, t, depth + 1)
  {
    forall c | IsChain(g, c) && c[0] == t
      ensures |c| <= MAX_DEPTH - (depth + 1) && !Poisoned(g, c[|c| - 1])
    {
      var longer := [m] + c;
      assert longer[1..] == c;
      assert IsChain(g, longer) && longer[0] == m && longer[|longer| - 1] == c[|c| - 1];
    }
  }

  lemma ChainsFitHere(g: Graph, m: TypeName, depth: nat)
    requires m in g && ChainsFit(g, m, depth)
    ensures depth < MAX_DEPTH && !Poisoned(g, m)
  {
    var one := [m];
    assert IsChain(g, one) && one[0] == m;
  }

  lemma NestedInGraph(g: Graph, m: TypeName, t: TypeName)
    requires GraphOk(g) && m in g && t in Nested(g, m)
    ensures t in g
  {
    var i :| 0 <= i < |g[m].fields| && g[m].fields[i].kind.MessageKind? &&
      WellKnown(g[m].fields[i].kind.name).None? && g[m].fields[i].kind.name == t;
  }

  lemma {:induction false} ChainsFitDown(g: Graph, m: TypeName, depth: nat)
    requires GraphOk(g) && m in g && depth <= MAX_DEPTH && ChainsFit(g, m, depth)
    ensures Fits(g, m, depth)
    decreases MAX_DEPTH - depth
  {
    ChainsFitHere(g, m, depth);
    forall t | t in Nested(g, m)
      ensures t in g && Fits(g, t, depth + 1)
    {
      NestedInGraph(g, m, t);
      ChainsFitNested(g, m, depth, t);
      ChainsFitDown(g, t, depth + 1);
    }
  }

  /** Building terminates on every graph, and from the top it succeeds exactly when no
      chain of nested messages is longer than eight and none reaches a message with
      a field of an unsupported type. */
  lemma {:induction false} BuildSucceedsExactly(g: Graph, m: TypeName)
    requires GraphOk(g) && m in g
    ensures ForMessage(g, m, 0).Ok? <==> ChainsFit(g, m, 0)
  {
    MessageFits(g, m, 0);
    if Fits(g, m, 0) {
      forall c | IsChain(g, c) && c[0] == m
        ensures |c| <= MAX_DEPTH && !Poisoned(g, c[|c| - 1])
      {
        FitsBoundsChains(g, m, 0, c);
      }
    }
    if ChainsFit(g, m, 0) {
      ChainsFitDown(g, m, 0);
    }
  }

  lemma {:induction false} ChainJoin(g: Graph, a: seq<TypeName>, b: seq<TypeName>)
    requires IsChain(g, a) && IsChain(g, b) && a[|a| - 1] in g && b[0] in Nested(g, a[|a| - 1])
    ensures IsChain(g, a + b)
  {
    if |a| == 1 {
      assert (a + b)[1..] == b;
    } else {
      ChainJoin(g, a[1..], b);
      assert (a + b)[1..] == a[1..] + b;
    }
  }

  lemma {:induction false} ChainFrom(g: Graph, c: seq<TypeName>, i: nat)
    requires IsChain(g, c) && i < |c|
    ensures IsChain(g, c[i..])
  {
    if i > 0 {
      ChainFrom(g, c[1..], i - 1);
      assert c[1..][i - 1..] == c[i..];
    }
  }

  lemma {:induction false} ChainUpTo(g: Graph, c: seq<TypeName>, j: nat)
    requires IsChain(g, c) && 0 < j <= |c|
    ensures IsChain(g, c[..j]) && c[j - 1] in g
  {
    if j > 1 {
      ChainUpTo(g, c[1..], j - 1);
      assert c[..j][1..] == c[1..][..j - 1];
    }
  }

  /** A chain that comes back to a message can be made as long as one likes. */
  lemma {:induction false} Pump(g: Graph, c: seq<TypeName>, i: nat, j: nat, n: nat) returns (d: seq<TypeName>)
    requires IsChain(g, c) && i < j < |c| && c[i] == c[j]
    ensures IsChain(g, d) && d[0] == c[0] && d[|d| - 1] == c[j] && |d| >= n
  {
    ChainUpTo(g, c, j + 1);
    if n == 0 {
      d := c[..j + 1];
    } else {
      var e := Pump(g, c, i, j, n - 1);
      ChainFrom(g, c, i);
      var back := c[i..][1..];
      ChainUpTo(g, back, j - i);
      ChainJoin(g, e, back[..j - i]);
      d := e + back[..j - i];
    }
  }

  /** An input from which a recursive message type can be reached is always refused. */
  lemma {:induction false} RecursiveTypesRefused(g: Graph, m: TypeName, c: seq<TypeName>, i: nat, j: nat)
    requires GraphOk(g) && m in g && IsChain(g, c) && c[0] == m && i < j < |c| && c[i] == c[j]
    ensures ForMessage(g, m, 0).Err?
  {
    var d := Pump(g, c, i, j, MAX_DEPTH + 1);
    BuildSucceedsExactly(g, m);
  }

  // ---------------------------------------------------------------------------
  // What built schemas look like
  // ---------------------------------------------------------------------------

  /** The shape of every schema that is built: keywords only where they apply, and
      name sets that speak of declared properties. */
  ghost predicate IrForm(s: Schema) {
    && (s.typ == ObjectT || (s.props == map[] && s.required == [] && s.extra == Closed && s.oneofMembers == {} && s.nonNullable == {}))
    && (s.typ == ArrayT <==> s.items.Some?)
    && (s.typ == StringT || s.enum == [])
    && (forall k | k in s.required :: k in s.props)
    && s.oneofMembers <= s.props.Keys
    && s.nonNullable <= s.props.Keys
    && (s.extra != Closed ==> s.props == map[])
    && s.extra != Free(false)
    && (forall k | k in s.props :: IrForm(s.props[k]))
    && (s.items.Some? ==> IrForm(s.items.value))
    && (s.extra.Typed? ==> IrForm(s.extra.value))
  }

  lemma ScalarIr(t: JsonType, d: string, values: seq<string>)
    requires t !in {ObjectT, ArrayT} && (t != StringT ==> values == [])
    ensures IrForm(Leaf(t).(desc := d, enum := values))
  {
  }

  lemma WellKnownIr(name: TypeName)
    requires WellKnown(name).Some? && WellKnown(name).value.Ok?
    ensures IrForm(WellKnown(name).value.schema)
  {
    var s := WellKnown(name).value.schema;
    if !name.Struct? {
      ScalarIr(s.typ, s.desc, s.enum);
      assert s == Leaf(s.typ).(desc := s.desc, enum := s.enum);
    }
  }

  lemma AddFieldIr(s: Schema, f: Field, fs: Schema)
    requires IrForm(s) && s.typ == ObjectT && s.extra == Closed && IrForm(fs)
    ensures IrForm(AddField(s, f, fs)) && AddField(s, f, fs).typ == ObjectT && AddField(s, f, fs).extra == Closed
  {
    var described := AddField(s, f, fs).props[f.jsonName];
    assert IrForm(described);
  }

  lemma {:induction false} FieldsIr(g: Graph, m: TypeName, depth: nat, n: nat)
    requires GraphOk(g) && m in g && depth < MAX_DEPTH && n <= |g[m].fields|
    requires ForFields(g, m, depth, n).Ok?
    ensures
      var s := ForFields(g, m, depth, n).schema;
      IrForm(s) && s.typ == ObjectT && s.extra == Closed
    decreases MAX_DEPTH - depth - 1, 4, n
  {
    if n > 0 {
      FieldsIr(g, m, depth, n - 1);
      var f := g[m].fields[n - 1];
      FieldIr(g, f, depth + 1);
      AddFieldIr(ForFields(g, m, depth, n - 1).schema, f, ForField(g, f, depth + 1).schema);
    }
  }

  lemma {:induction false} FieldsDeclared(g: Graph, m: TypeName, depth: nat, n: nat)
    requires GraphOk(g) && m in g && depth < MAX_DEPTH && n <= |g[m].fields|
    requires ForFields(g, m, depth, n).Ok?
    ensures forall i | 0 <= i < n :: g[m].fields[i].jsonName in ForFields(g, m, depth, n).schema.props
  {
    if n > 0 {
      FieldsDeclared(g, m, depth, n - 1);
    }
  }

  lemma ShapeIr(s: Schema)
    requires IrForm(s)
    ensures IrForm(Leaf(ObjectT).(extra := Typed(s))) && IrForm(Leaf(ArrayT).(items := Some(s)))
  {
  }

  lemma {:induction false} FieldIr(g: Graph, f: Field, depth: nat)
    requires GraphOk(g) && KindOk(g, f.kind) && depth <= MAX_DEPTH && ForField(g, f, depth).Ok?
    ensures IrForm(ForField(g, f, depth).schema)
    decreases MAX_DEPTH - depth, 3, 0
  {
    SingularIr(g, f.kind, depth);
    ShapeIr(ForSingular(g, f.kind, depth).schema);
  }

  lemma {:induction false} SingularIr(g: Graph, kind: Kind, depth: nat)
    requires GraphOk(g) && KindOk(g, kind) && depth <= MAX_DEPTH && ForSingular(g, kind, depth).Ok?
    ensures IrForm(ForSingular(g, kind, depth).schema)
    decreases MAX_DEPTH - depth, 2, 0
  {
    SingularOk(g, kind, depth);
    if kind.MessageKind? {
      if WellKnown(kind.name).Some? {
        WellKnownIr(kind.name);
      } else {
        MessageIr(g, kind.name, depth);
      }
    } else {
      var s := ForSingular(g, kind, depth).schema;
      ScalarIr(s.typ, s.desc, s.enum);
      assert s == Leaf(s.typ).(desc := s.desc, enum := s.enum);
    }
  }

  lemma {:induction false} RealMembersDeclared(g: Graph, m: TypeName, n: nat, s: Schema)
    requires GraphOk(g) && m in g && n <= |g[m].oneofs|
    requires forall i | 0 <= i < |g[m].fields| :: g[m].fields[i].jsonName in s.props
    ensures RealMembers(g[m], n) <= s.props.Keys
    decreases n
  {
    if n > 0 {
      RealMembersDeclared(g, m, n - 1, s);
    }
  }

  /** Every schema that is built has the form. */
  lemma {:induction false} MessageIr(g: Graph, m: TypeName, depth: nat)
    requires GraphOk(g) && m in g && depth <= MAX_DEPTH && ForMessage(g, m, depth).Ok?
    ensures IrForm(ForMessage(g, m, depth).schema) && ForMessage(g, m, depth).schema.typ == ObjectT
    decreases MAX_DEPTH - depth, 0, 0
  {
    FieldsIr(g, m, depth, |g[m].fields|);
    FieldsDeclared(g, m, depth, |g[m].fields|);
    RealMembersDeclared(g, m, |g[m].oneofs|, ForFields(g, m, depth, |g[m].fields|).schema);
  }

  // ---------------------------------------------------------------------------
  // Which JSON a built schema accepts
  // ---------------------------------------------------------------------------

  /** The last of the first n fields with the name. */
  function LastNamed(fields: seq<Field>, n: nat, k: string): Option<Field>
    requires n <= |fields|
  {
    if n == 0 then None
    else if fields[n - 1].jsonName == k then Some(fields[n - 1])
    else LastNamed(fields, n - 1, k)
  }

  predicate MarkedRequired(f: Field) {
    f.ai.Some? && f.ai.value.required
  }

  predicate IsInteger(v: Json) {
    v.Num? && v.n.Floor as real == v.n
  }

  /** The JSON form of a well-known message; the two that are refused have none. */
  predicate WellKnownForm(name: TypeName, v: Json) {
    match name
    case BoolValue => v.Bool?
    case Int32Value => IsInteger(v)
    case UInt32Value => IsInteger(v)
    case FloatValue => v.Num?
    case DoubleValue => v.Num?
    case Struct => v.Obj?
    case Value => false
    case Any => false
    case Named(_) => false
    case _ => v.Str?
  }

  /** The JSON form of one value of a kind.  64-bit integers and bytes are strings, an
      enum is one of its names, and a message is an object or its well-known form. */
  ghost predicate KindForm(g: Graph, kind: Kind, v: Json)
    decreases v, 1
  {
    match kind
    case BoolKind => v.Bool?
    case Int32Kind => IsInteger(v)
    case Int64Kind => v.Str?
    case FloatKind => v.Num?
    case StringKind => v.Str?
    case BytesKind => v.Str?
    case EnumKind(values) => v.Str? && (values != [] ==> v.s in values)
    case MessageKind(name) => if name.Named? then MessageForm(g, name, v) else WellKnownForm(name, v)
    case OtherKind => v.Str?
  }

  /** A repeated field is an array, a map field an object with any keys. */
  ghost predicate FieldForm(g: Graph, f: Field, v: Json)
    decreases v, 2
  {
    match f.shape
    case Singular => KindForm(g, f.kind, v)
    case List => v.Arr? && forall i | 0 <= i < |v.items| :: KindForm(g, f.kind, v.items[i])
    case MapOf => v.Obj? && forall k | k in v.fields :: KindForm(g, f.kind, v.fields[k])
  }

  /** An object over the names of the fields, each in its form, with those that are
      marked as required. */
  ghost predicate MessageForm(g: Graph, m: TypeName, v: Json)
    decreases v, 0
  {
    && m in g && v.Obj?
    && (forall i | 0 <= i < |g[m].fields| && MarkedRequired(g[m].fields[i]) :: g[m].fields[i].jsonName in v.fields)
    && (forall k | k in v.fields ::
         var f := LastNamed(g[m].fields, |g[m].fields|, k);
         f.Some? && FieldForm(g, f.value, v.fields[k]))
  }

  /** The description of a field's schema: the one given with the field, if any. */
  predicate DescribedBy(s: Schema, f: Field, own: Schema) {
    s.desc == if f.ai.Some? && f.ai.value.description != "" then f.ai.value.description else own.desc
  }

  /** The property under k is the schema of the field of that name, but for its description. */
  ghost predicate PropIsField(g: Graph, m: TypeName, depth: nat, n: nat, props: map<string, Schema>, k: string)
    requires GraphOk(g) && m in g && depth < MAX_DEPTH && n <= |g[m].fields|
  {
    var f := LastNamed(g[m].fields, n, k);
    && (k in props <==> f.Some?)
    && (f.Some? ==>
         && KindOk(g, f.value.kind) && ForField(g, f.value, depth + 1).Ok?
         && var own := ForField(g, f.value, depth + 1).schema;
            props[k] == own.(desc := props[k].desc) && DescribedBy(props[k], f.value, own))
  }

  /** What the loop over the fields builds, property by property. */
  lemma {:induction false} PropsAreFields(g: Graph, m: TypeName, depth: nat, n: nat, k: string)
    requires GraphOk(g) && m in g && depth < MAX_DEPTH && n <= |g[m].fields|
    requires ForFields(g, m, depth, n).Ok?
    ensures PropIsField(g, m, depth, n, ForFields(g, m, depth, n).schema.props, k)
    decreases n
  {
    if n > 0 {
      PropsAreFields(g, m, depth, n - 1, k);
    }
  }

  lemma {:induction false} RequiredAreMarked(g: Graph, m: TypeName, depth: nat, n: nat, k: string)
    requires GraphOk(g) && m in g && depth < MAX_DEPTH && n <= |g[m].fields|
    requires ForFields(g, m, depth, n).Ok?
    ensures k in ForFields(g, m, depth, n).schema.required <==>
            exists i | 0 <= i < n :: MarkedRequired(g[m].fields[i]) && g[m].fields[i].jsonName == k
    ensures k in ForFields(g, m, depth, n).schema.nonNullable <==>
            exists i | 0 <= i < n :: ValidateRequires(g[m].fields[i]) && g[m].fields[i].jsonName == k
    decreases n
  {
    if n > 0 {
      RequiredAreMarked(g, m, depth, n - 1, k);
    }
  }

  lemma {:induction false} FieldsShape(g: Graph, m: TypeName, depth: nat, n: nat)
    requires GraphOk(g) && m in g && depth < MAX_DEPTH && n <= |g[m].fields|
    requires ForFields(g, m, depth, n).Ok?
    ensures
      var s := ForFields(g, m, depth, n).schema;
      s.typ == ObjectT && s.extra == Closed && s.enum == [] && s.items.None?
    decreases n
  {
    if n > 0 {
      FieldsShape(g, m, depth, n - 1);
    }
  }

  lemma WellKnownAccepts(name: TypeName, v: Json)
    requires WellKnown(name).Some? && WellKnown(name).value.Ok?
    ensures Accepts(WellKnown(name).value.schema, v) <==> WellKnownForm(name, v)
  {
  }

  lemma {:induction false} KindAccepts(g: Graph, kind: Kind, depth: nat, v: Json)
    requires GraphOk(g) && KindOk(g, kind) && depth <= MAX_DEPTH && ForSingular(g, kind, depth).Ok?
    ensures Accepts(ForSingular(g, kind, depth).schema, v) <==> KindForm(g, kind, v)
    decreases v, 1
  {
    SingularOk(g, kind, depth);
    if kind.MessageKind? {
      if kind.name.Named? {
        SchemaAcceptsExactly(g, kind.name, depth, v);
      } else {
        WellKnownAccepts(kind.name, v);
      }
    }
  }

  lemma {:induction false} FieldAccepts(g: Graph, f: Field, depth: nat, v: Json)
    requires GraphOk(g) && KindOk(g, f.kind) && depth <= MAX_DEPTH && ForField(g, f, depth).Ok?
    ensures Accepts(ForField(g, f, depth).schema, v) <==> FieldForm(g, f, v)
    decreases v, 2
  {
    var s := ForSingular(g, f.kind, depth).schema;
    match f.shape {
      case Singular => KindAccepts(g, f.kind, depth, v);
      case List =>
        if v.Arr? {
          forall i | 0 <= i < |v.items|
            ensures Accepts(s, v.items[i]) <==> KindForm(g, f.kind, v.items[i])
          {
            KindAccepts(g, f.kind, depth, v.items[i]);
          }
        }
      case MapOf =>
        if v.Obj? {
          forall k | k in v.fields
            ensures Accepts(s, v.fields[k]) <==> KindForm(g, f.kind, v.fields[k])
          {
            KindAccepts(g, f.kind, depth, v.fields[k]);
          }
        }
    }
  }

  lemma DescriptionIgnored(s: Schema, d: string, v: Json)
    ensures Accepts(s.(desc := d), v) <==> Accepts(s, v)
  {
  }

  lemma ObjectAcceptsFields(s: Schema, fields: map<string, Json>)
    requires s.typ == ObjectT && s.extra == Closed && s.enum == []
    ensures Accepts(s, Obj(fields)) <==>
      && (forall k | k in s.required :: k in fields)
      && (forall k | k in fields :: k in s.props && Accepts(s.props[k], fields[k]))
  {
  }

  lemma {:induction false} PropAccepts(g: Graph, m: TypeName, depth: nat, k: string, x: Json)
    requires GraphOk(g) && m in g && depth < MAX_DEPTH && ForFields(g, m, depth, |g[m].fields|).Ok?
    ensures
      var props := ForFields(g, m, depth, |g[m].fields|).schema.props;
      var f := LastNamed(g[m].fields, |g[m].fields|, k);
      (k in props && Accepts(props[k], x)) <==> (f.Some? && FieldForm(g, f.value, x))
    decreases x, 3
  {
    var props := ForFields(g, m, depth, |g[m].fields|).schema.props;
    var f := LastNamed(g[m].fields, |g[m].fields|, k);
    PropsAreFields(g, m, depth, |g[m].fields|, k);
    if f.Some? {
      FieldAccepts(g, f.value, depth + 1, x);
      DescriptionIgnored(ForField(g, f.value, depth + 1).schema, props[k].desc, x);
    }
  }

  lemma RequiredInValue(g: Graph, m: TypeName, depth: nat, fields: map<string, Json>)
    requires GraphOk(g) && m in g && depth < MAX_DEPTH && ForFields(g, m, depth, |g[m].fields|).Ok?
    ensures (forall k | k in ForFields(g, m, depth, |g[m].fields|).schema.required :: k in fields) <==>
            (forall i | 0 <= i < |g[m].fields| && MarkedRequired(g[m].fields[i]) :: g[m].fields[i].jsonName in fields)
  {
    var required := ForFields(g, m, depth, |g[m].fields|).schema.required;
    forall k
      ensures k in required <==>
              exists i | 0 <= i < |g[m].fields| :: MarkedRequired(g[m].fields[i]) && g[m].fields[i].jsonName == k
    {
      RequiredAreMarked(g, m, depth, |g[m].fields|, k);
    }
  }

  /** A built schema accepts exactly the JSON form of its message. */
  lemma {:induction false} SchemaAcceptsExactly(g: Graph, m: TypeName, depth: nat, v: Json)
    requires GraphOk(g) && m in g && depth <= MAX_DEPTH && ForMessage(g, m, depth).Ok?
    ensures Accepts(ForMessage(g, m, depth).schema, v) <==> MessageForm(g, m, v)
    decreases v, 0
  {
    var n := |g[m].fields|;
    var s, inner := ForMessage(g, m, depth).schema, ForFields(g, m, depth, n).schema;
    FieldsShape(g, m, depth, n);
    if v.Obj? {
      ObjectAcceptsFields(s, v.fields);
      forall k | k in v.fields
        ensures (k in inner.props && Accepts(inner.props[k], v.fields[k])) <==>
                (LastNamed(g[m].fields, n, k).Some? && FieldForm(g, LastNamed(g[m].fields, n, k).value, v.fields[k]))
      {
        PropAccepts(g, m, depth, k, v.fields[k]);
      }
      RequiredInValue(g, m, depth, v.fields);
    }
  }

  // ---------------------------------------------------------------------------
  // Which names a built schema sets apart
  // ---------------------------------------------------------------------------

  /** Whether a field tells unset from a zero value. */
  predicate TracksPresence(f: Field) {
    f.hasPresence || f.shape != Singular
  }

  /** Whether the rules pass a value of some length; None is a field that tells it is unset.
      A field that does not has length zero when it is unset. */
  predicate RulesPass(r: Rules, tracks: bool, length: Option<nat>) {
    var zero := length.None? || length.value == 0;
    || r.ignore == IgnoreAlways
    || (r.ignore == IgnoreIfZeroValue && zero)
    || (&& (r.required ==> length.Some? && (tracks || !zero))
        && (length.Some? ==> r.stringMinLen <= length.value && r.bytesMinLen <= length.value))
  }

  /** A field is taken to be demanded exactly when its rules do not pass it unset. */
  lemma {:induction false} UnsetRefusedExactly(f: Field)
    ensures ValidateRequires(f) <==>
            f.rules.Some? && !RulesPass(f.rules.value, TracksPresence(f), if TracksPresence(f) then None else Some(0))
  {
  }

  lemma {:induction false} RealMembersExactly(m: Message, n: nat, k: string)
    requires n <= |m.oneofs|
    ensures k in RealMembers(m, n) <==>
      exists i | 0 <= i < n :: !m.oneofs[i].synthetic && k in MemberNames(m, m.oneofs[i].members)
  {
    if n > 0 {
      RealMembersExactly(m, n - 1, k);
    }
  }

  /** Exactly which names are required, demanded by validation, and members of a oneof
      that is not the one behind an optional field. */
  lemma {:induction false} NameSetsExactly(g: Graph, m: TypeName, depth: nat, k: string)
    requires GraphOk(g) && m in g && depth <= MAX_DEPTH && ForMessage(g, m, depth).Ok?
    ensures
      var s, md := ForMessage(g, m, depth).schema, g[m];
      && (k in s.required <==> exists i | 0 <= i < |md.fields| :: MarkedRequired(md.fields[i]) && md.fields[i].jsonName == k)
      && (k in s.nonNullable <==> exists i | 0 <= i < |md.fields| :: ValidateRequires(md.fields[i]) && md.fields[i].jsonName == k)
      && (k in s.oneofMembers <==>
           exists i, j | 0 <= i < |md.oneofs| && 0 <= j < |md.oneofs[i].members| ::
             && !md.oneofs[i].synthetic && md.oneofs[i].members[j] < |md.fields|
             && md.fields[md.oneofs[i].members[j]].jsonName == k)
  {
    RequiredAreMarked(g, m, depth, |g[m].fields|, k);
    RealMembersExactly(g[m], |g[m].oneofs|, k);
  }
}
