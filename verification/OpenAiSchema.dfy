/** Rendering a tool schema in OpenAI's strict form, and what the rendering means:
    a property the caller leaves unset is sent as null. */
module OpenAiSchema {
  import opened Common
  import opened ToolSchema
  import opened Order

  /** One type, or that type or null. */
  datatype OType = Single(t: JsonType) | OrNull(t: JsonType)

  datatype OExtra = Absent | Flag(b: bool) | OTyped(value: OSchema)

  /** An enum lists strings, and null as None. */
  datatype OSchema = OSchema(typ: OType, desc: string, props: map<string, OSchema>, required: Option<seq<string>>,
                             items: Option<OSchema>, enum: seq<Option<string>>, extra: OExtra)

  /** The values a rendered schema accepts. */
  predicate AcceptsO(o: OSchema, v: Json)
    decreases v
  {
    && (TypeOk(o.typ.t, v) || (o.typ.OrNull? && v.Null?))
    && (o.enum != [] ==> (v.Str? && Some(v.s) in o.enum) || (v.Null? && None in o.enum))
    && (v.Arr? && o.items.Some? ==> forall i | 0 <= i < |v.items| :: AcceptsO(o.items.value, v.items[i]))
    && (v.Obj? && o.required.Some? ==> forall k | k in o.required.value :: k in v.fields)
    && (v.Obj? ==> forall k | k in v.fields ::
         if k in o.props then AcceptsO(o.props[k], v.fields[k])
         else match o.extra
           case Absent => true
           case Flag(b) => b
           case OTyped(t) => AcceptsO(t, v.fields[k]))
  }

  // ---------------------------------------------------------------------------
  // The rendering
  // ---------------------------------------------------------------------------

  predicate StrictCompatible(s: Schema) {
    && s.oneofMembers == {}
    && s.extra == Closed
    && (s.items.Some? ==> StrictCompatible(s.items.value))
    && (forall k | k in s.props :: StrictCompatible(s.props[k]))
  }

  /** Widens a schema that still has a single type to null as well. */
  function Nullable(o: OSchema): OSchema
    requires o.typ.Single?
  {
    o.(typ := OrNull(o.typ.t), enum := if o.enum != [] then o.enum + [None] else o.enum)
  }

  /** Whether a property may be left unset, and so is widened to null. */
  predicate MayBeNull(s: Schema, k: string) {
    k !in s.oneofMembers && k !in s.required && k !in s.nonNullable
  }

  function EnumOf(enum: seq<string>): (r: seq<Option<string>>)
    ensures |r| == |enum| && forall i | 0 <= i < |enum| :: r[i] == Some(enum[i])
  {
    seq(|enum|, i requires 0 <= i < |enum| => Some(enum[i]))
  }

  /** In order, the properties listed as required: all but the members of oneofs. */
  ghost function NamesOf(s: Schema): seq<string> {
    Sorted(s.props.Keys - s.oneofMembers)
  }

  ghost function ToOpenAi(s: Schema): (o: OSchema)
    ensures o.typ == Single(s.typ) && o.desc == s.desc
    decreases s, 2
  {
    OSchema(
      Single(s.typ), s.desc,
      if s.typ == ObjectT then PropsOf(s) else map[],
      if s.typ == ObjectT then Some(NamesOf(s)) else None,
      if s.items.Some? then Some(ToOpenAi(s.items.value)) else None,
      EnumOf(s.enum),
      if s.typ == ObjectT then ExtraOf(s) else Absent)
  }

  ghost function ExtraOf(s: Schema): OExtra
    decreases s, 0
  {
    match s.extra
    case Closed => Flag(false)
    case Free(open) => Flag(open)
    case Typed(t) => OTyped(ToOpenAi(t))
  }

  ghost function PropsOf(s: Schema): map<string, OSchema>
    decreases s, 1
  {
    map k | k in s.props :: RenderedProp(s, k)
  }

  ghost function RenderedProp(s: Schema, k: string): OSchema
    requires k in s.props
    decreases s, 0
  {
    var o := ToOpenAi(s.props[k]);
    if MayBeNull(s, k) then Nullable(o) else o
  }

  method RenderEnum(values: seq<string>) returns (enum: seq<Option<string>>)
    ensures enum == EnumOf(values)
  {
    enum := [];
    var i := 0;
    while i < |values|
      invariant 0 <= i <= |values| && enum == EnumOf(values)[..i]
    {
      enum := enum + [Some(values[i])];
      i := i + 1;
    }
  }

  /** toOpenAISchema. */
  method RenderOpenAi(s: Schema) returns (o: OSchema)
    ensures o == ToOpenAi(s)
    decreases s, 3
  {
    var enum := RenderEnum(s.enum);
    var items: Option<OSchema> := None;
    if s.items.Some? {
      var rendered := RenderOpenAi(s.items.value);
      items := Some(rendered);
    }
    if s.typ == ObjectT {
      var extra := RenderExtra(s);
      var props, names := RenderProps(s);
      return OSchema(Single(s.typ), s.desc, props, Some(names), items, enum, extra);
    }
    return OSchema(Single(s.typ), s.desc, map[], None, items, enum, Absent);
  }

  method RenderExtra(s: Schema) returns (extra: OExtra)
    ensures extra == ExtraOf(s)
    decreases s, 1
  {
    match s.extra {
      case Typed(t) =>
        var value := RenderOpenAi(t);
        extra := OTyped(value);
      case Free(open) => extra := Flag(open);
      case Closed => extra := Flag(false);
    }
  }

  /** The rendered properties, and in order the names that are required. */
  method RenderProps(s: Schema) returns (props: map<string, OSchema>, names: seq<string>)
    ensures props == PropsOf(s) && names == NamesOf(s)
    decreases s, 2
  {
    var unsorted;
    props, unsorted := RenderEachProp(s);
    names := SortStrings(unsorted);
    SortedIs(names, s.props.Keys - s.oneofMembers);
  }

  /** The names list the elements of the set, each once. */
  ghost predicate Lists(names: seq<string>, ks: set<string>) {
    && (forall k :: k in names <==> k in ks)
    && (forall i, j | 0 <= i < j < |names| :: names[i] != names[j])
  }

  lemma ListsOneMore(names: seq<string>, ks: set<string>, skip: set<string>, k: string)
    requires Lists(names, ks - skip) && k !in ks
    ensures Lists(if k in skip then names else names + [k], ks + {k} - skip)
  {
    assert forall x :: x in names + [k] <==> x in names || x == k;
    assert k !in names;
  }

  /** The properties in ks have been rendered and listed. */
  ghost predicate Done(s: Schema, ks: set<string>, props: map<string, OSchema>, names: seq<string>) {
    && ks <= s.props.Keys && props.Keys == ks
    && (forall k | k in ks :: props[k] == RenderedProp(s, k))
    && Lists(names, ks - s.oneofMembers)
  }

  lemma OneMoreDone(s: Schema, ks: set<string>, props: map<string, OSchema>, names: seq<string>, k: string)
    requires Done(s, ks, props, names) && k in s.props && k !in ks
    ensures Done(s, ks + {k}, props[k := RenderedProp(s, k)], if k in s.oneofMembers then names else names + [k])
  {
    ListsOneMore(names, ks, s.oneofMembers, k);
  }

  lemma MoveOver<T>(all: set<T>, todo: set<T>, k: T)
    requires k in todo && todo <= all
    ensures all - (todo - {k}) == all - todo + {k}
  {
  }

  lemma AllDone(s: Schema, props: map<string, OSchema>, names: seq<string>)
    requires Done(s, s.props.Keys, props, names)
    ensures props == PropsOf(s) && Lists(names, s.props.Keys - s.oneofMembers)
  {
  }

  /** Visits the properties in any order. */
  method RenderEachProp(s: Schema) returns (props: map<string, OSchema>, names: seq<string>)
    ensures props == PropsOf(s) && Lists(names, s.props.Keys - s.oneofMembers)
    decreases s, 1
  {
    props, names := map[], [];
    var all := s.props.Keys;
    var todo := all;
    while todo != {}
      invariant todo <= all && Done(s, all - todo, props, names)
      decreases |todo|
    {
      var k :| k in todo;
      var p := RenderProp(s, k);
      OneMoreDone(s, all - todo, props, names, k);
      MoveOver(all, todo, k);
      if k !in s.oneofMembers {
        names := names + [k];
      }
      props := props[k := p];
      todo := todo - {k};
    }
    assert all - todo == all;
    AllDone(s, props, names);
  }

  method RenderProp(s: Schema, k: string) returns (p: OSchema)
    requires k in s.props
    ensures p == RenderedProp(s, k)
    decreases s, 0
  {
    p := RenderOpenAi(s.props[k]);
    if k !in s.oneofMembers && k !in s.required && k !in s.nonNullable {
      p := Nullable(p);
    }
  }

  // ---------------------------------------------------------------------------
  // Values with and without their unset properties
  // ---------------------------------------------------------------------------

  /** The value without the declared properties that are null. */
  function DropUnset(s: Schema, v: Json): Json
    decreases v
  {
    match v
    case Obj(fields) =>
      Obj(map k | k in fields && !(k in s.props && fields[k].Null?) ::
            if k in s.props then DropUnset(s.props[k], fields[k])
            else if s.extra.Typed? then DropUnset(s.extra.value, fields[k])
            else fields[k])
    case Arr(items) =>
      if s.items.Some? then Arr(seq(|items|, i requires 0 <= i < |items| => DropUnset(s.items.value, items[i]))) else v
    case _ => v
  }

  /** The value with every missing property that is in no oneof set to null. */
  function Pad(s: Schema, v: Json): Json
    decreases v
  {
    match v
    case Obj(fields) =>
      Obj(map k | k in fields.Keys + (s.props.Keys - s.oneofMembers) ::
            if k !in fields then Null
            else if k in s.props then Pad(s.props[k], fields[k])
            else if s.extra.Typed? then Pad(s.extra.value, fields[k])
            else fields[k])
    case Arr(items) =>
      if s.items.Some? then Arr(seq(|items|, i requires 0 <= i < |items| => Pad(s.items.value, items[i]))) else v
    case _ => v
  }

  /** The value has every property, outside of oneofs, that validation refuses to leave unset. */
  predicate Supplies(s: Schema, v: Json)
    decreases v
  {
    match v
    case Obj(fields) =>
      && (forall k | k in s.props && k in s.nonNullable && k !in s.oneofMembers :: k in fields)
      && (forall k | k in fields ::
           if k in s.props then Supplies(s.props[k], fields[k])
           else s.extra.Typed? ==> Supplies(s.extra.value, fields[k]))
    case Arr(items) => s.items.Some? ==> forall i | 0 <= i < |items| :: Supplies(s.items.value, items[i])
    case _ => true
  }

  /** The value has every property that validation refuses to leave unset, whether or not
      it is in a oneof. */
  predicate SuppliesAll(s: Schema, v: Json)
    decreases v
  {
    match v
    case Obj(fields) =>
      && (forall k | k in s.props && k in s.nonNullable :: k in fields)
      && (forall k | k in fields ::
           if k in s.props then SuppliesAll(s.props[k], fields[k])
           else s.extra.Typed? ==> SuppliesAll(s.extra.value, fields[k]))
    case Arr(items) => s.items.Some? ==> forall i | 0 <= i < |items| :: SuppliesAll(s.items.value, items[i])
    case _ => true
  }

  /** No property that must be present belongs to a oneof. */
  ghost predicate NoRequiredOneof(s: Schema) {
    && (forall k | k in s.required :: k !in s.oneofMembers)
    && (forall k | k in s.props :: NoRequiredOneof(s.props[k]))
    && (s.items.Some? ==> NoRequiredOneof(s.items.value))
    && (s.extra.Typed? ==> NoRequiredOneof(s.extra.value))
  }

  /** No property that validation refuses to leave unset belongs to a oneof. */
  ghost predicate NoDemandedOneof(s: Schema) {
    && s.nonNullable !! s.oneofMembers
    && (forall k | k in s.props :: NoDemandedOneof(s.props[k]))
    && (s.items.Some? ==> NoDemandedOneof(s.items.value))
    && (s.extra.Typed? ==> NoDemandedOneof(s.extra.value))
  }

  lemma {:induction false} AllIsMore(s: Schema, v: Json)
    requires SuppliesAll(s, v)
    ensures Supplies(s, v)
    decreases v
  {
    match v {
      case Obj(fields) =>
        forall k | k in fields
          ensures if k in s.props then Supplies(s.props[k], fields[k])
                  else s.extra.Typed? ==> Supplies(s.extra.value, fields[k])
        {
          if k in s.props {
            AllIsMore(s.props[k], fields[k]);
          } else if s.extra.Typed? {
            AllIsMore(s.extra.value, fields[k]);
          }
        }
      case Arr(items) =>
        if s.items.Some? {
          forall i | 0 <= i < |items|
            ensures Supplies(s.items.value, items[i])
          {
            AllIsMore(s.items.value, items[i]);
          }
        }
      case _ =>
    }
  }

  // ---------------------------------------------------------------------------
  // What a rendered schema accepts, in terms of the schema it came from
  // ---------------------------------------------------------------------------

  lemma EnumMeaning(enum: seq<string>, x: string)
    ensures Some(x) in EnumOf(enum) <==> x in enum
    ensures None !in EnumOf(enum)
    ensures EnumOf(enum) == [] <==> enum == []
  {
    if x in enum {
      var i :| 0 <= i < |enum| && enum[i] == x;
      assert EnumOf(enum)[i] == Some(x);
    }
  }

  lemma NullableMeaning(o: OSchema, x: Json)
    requires o.typ.Single?
    ensures AcceptsO(Nullable(o), x) <==> AcceptsO(o, x) || x.Null?
  {
    if o.enum != [] {
      var wide := o.enum + [None];
      assert wide[|o.enum|] == None;
      if x.Str? {
        assert Some(x.s) in wide <==> Some(x.s) in o.enum;
      }
    }
  }

  /** A rendered property accepts what its schema does, and null when it may be unset. */
  lemma PropMeaning(s: Schema, k: string, x: Json)
    requires k in s.props
    ensures AcceptsO(RenderedProp(s, k), x) <==>
            AcceptsO(ToOpenAi(s.props[k]), x) || (MayBeNull(s, k) && x.Null?)
    ensures AcceptsO(ToOpenAi(s.props[k]), x) ==> !x.Null?
  {
    NullableMeaning(ToOpenAi(s.props[k]), x);
  }

  ghost predicate ObjectOk(s: Schema, fields: map<string, Json>) {
    && (forall k | k in s.props && k !in s.oneofMembers :: k in fields)
    && (forall k | k in fields ::
         if k in s.props then AcceptsO(RenderedProp(s, k), fields[k])
         else match s.extra
           case Closed => false
           case Free(open) => open
           case Typed(t) => AcceptsO(ToOpenAi(t), fields[k]))
  }

  lemma RenderedShape(s: Schema)
    requires s.typ == ObjectT
    ensures
      var o := ToOpenAi(s);
      && o.props.Keys == s.props.Keys && o.required.Some? && o.extra == ExtraOf(s)
      && (forall k | k in s.props :: o.props[k] == RenderedProp(s, k))
      && (forall k :: k in o.required.value <==> k in s.props && k !in s.oneofMembers)
  {
  }

  lemma ShapeMeaning(s: Schema, o: OSchema, fields: map<string, Json>)
    requires o.typ == Single(ObjectT) && o.enum == [] && o.props.Keys == s.props.Keys
    requires o.required.Some? && o.extra == ExtraOf(s)
    requires forall k | k in s.props :: o.props[k] == RenderedProp(s, k)
    requires forall k :: k in o.required.value <==> k in s.props && k !in s.oneofMembers
    ensures AcceptsO(o, Obj(fields)) <==> ObjectOk(s, fields)
  {
  }

  lemma ObjectMeaning(s: Schema, fields: map<string, Json>)
    requires IrForm(s) && s.typ == ObjectT
    ensures AcceptsO(ToOpenAi(s), Obj(fields)) <==> ObjectOk(s, fields)
  {
    RenderedShape(s);
    assert ToOpenAi(s).enum == [];
    ShapeMeaning(s, ToOpenAi(s), fields);
  }

  lemma ArrayMeaning(s: Schema, items: seq<Json>)
    requires IrForm(s) && s.typ == ArrayT
    ensures AcceptsO(ToOpenAi(s), Arr(items)) <==>
            forall i | 0 <= i < |items| :: AcceptsO(ToOpenAi(s.items.value), items[i])
  {
    assert ToOpenAi(s).enum == [];
  }

  lemma ScalarMeaning(s: Schema, v: Json)
    requires IrForm(s) && !v.Obj? && !v.Arr?
    ensures AcceptsO(ToOpenAi(s), v) <==> Accepts(s, v)
  {
    EnumMeaning(s.enum, if v.Str? then v.s else "");
  }

  // ---------------------------------------------------------------------------
  // From the rendering back to the schema
  // ---------------------------------------------------------------------------

  /** What dropping the unset properties of an accepted value gives. */
  ghost predicate DropsBack(s: Schema, v: Json) {
    var u := DropUnset(s, v);
    Accepts(s, u) && Supplies(s, u) && Pad(s, u) == v
  }

  /** The fields of an accepted object drop back, or are null where that may be. */
  ghost predicate FieldsDrop(s: Schema, fields: map<string, Json>) {
    forall k | k in fields ::
      if k in s.props then (if fields[k].Null? then MayBeNull(s, k) else DropsBack(s.props[k], fields[k]))
      else s.extra.Typed? ==> DropsBack(s.extra.value, fields[k])
  }

  lemma ObjectAccepts(s: Schema, fields: map<string, Json>)
    requires IrForm(s) && NoRequiredOneof(s) && s.typ == ObjectT && ObjectOk(s, fields) && FieldsDrop(s, fields)
    ensures Accepts(s, DropUnset(s, Obj(fields)))
  {
  }

  lemma ObjectSupplies(s: Schema, fields: map<string, Json>)
    requires s.typ == ObjectT && ObjectOk(s, fields) && FieldsDrop(s, fields)
    ensures Supplies(s, DropUnset(s, Obj(fields)))
  {
  }

  lemma ObjectPads(s: Schema, fields: map<string, Json>)
    requires s.typ == ObjectT && ObjectOk(s, fields) && FieldsDrop(s, fields)
    ensures Pad(s, DropUnset(s, Obj(fields))) == Obj(fields)
  {
    var u := DropUnset(s, Obj(fields));
    var w := Pad(s, u).fields;
    assert w.Keys == fields.Keys;
    forall k | k in fields
      ensures w[k] == fields[k]
    {
      if k in s.props && fields[k].Null? {
        assert k !in u.fields;
      }
    }
  }

  lemma ArrayDrops(s: Schema, items: seq<Json>)
    requires IrForm(s) && s.typ == ArrayT
    requires forall i | 0 <= i < |items| :: DropsBack(s.items.value, items[i])
    ensures DropsBack(s, Arr(items))
  {
    var u := DropUnset(s, Arr(items));
    assert Pad(s, u).items == items;
  }

  /** Any value the rendering accepts becomes, without its unset properties, a value that
      the schema accepts and that has what validation demands outside of oneofs; putting
      nulls back restores it. */
  lemma {:induction false} RenderingSound(s: Schema, v: Json)
    requires IrForm(s) && NoRequiredOneof(s) && AcceptsO(ToOpenAi(s), v)
    ensures DropsBack(s, v)
    decreases v
  {
    match v {
      case Obj(fields) =>
        ObjectMeaning(s, fields);
        forall k | k in fields
          ensures if k in s.props then (if fields[k].Null? then MayBeNull(s, k) else DropsBack(s.props[k], fields[k]))
                  else s.extra.Typed? ==> DropsBack(s.extra.value, fields[k])
        {
          if k in s.props {
            PropMeaning(s, k, fields[k]);
            if !fields[k].Null? {
              RenderingSound(s.props[k], fields[k]);
            }
          } else if s.extra.Typed? {
            RenderingSound(s.extra.value, fields[k]);
          }
        }
        ObjectAccepts(s, fields);
        ObjectSupplies(s, fields);
        ObjectPads(s, fields);
      case Arr(items) =>
        ArrayMeaning(s, items);
        forall i | 0 <= i < |items|
          ensures DropsBack(s.items.value, items[i])
        {
          RenderingSound(s.items.value, items[i]);
        }
        ArrayDrops(s, items);
      case _ =>
        ScalarMeaning(s, v);
    }
  }

  /** The fields of an accepted object supply what is demanded of them, or are null. */
  ghost predicate FieldsSupply(s: Schema, fields: map<string, Json>) {
    forall k | k in fields ::
      if k in s.props then
        (if fields[k].Null? then MayBeNull(s, k) else SuppliesAll(s.props[k], DropUnset(s.props[k], fields[k])))
      else s.extra.Typed? ==> SuppliesAll(s.extra.value, DropUnset(s.extra.value, fields[k]))
  }

  lemma ObjectSuppliesAll(s: Schema, fields: map<string, Json>)
    requires s.nonNullable !! s.oneofMembers && ObjectOk(s, fields) && FieldsSupply(s, fields)
    ensures SuppliesAll(s, DropUnset(s, Obj(fields)))
  {
  }

  /** Where validation demands no oneof member, any value the rendering accepts has all
      that validation demands. */
  lemma {:induction false} RenderingSupplies(s: Schema, v: Json)
    requires IrForm(s) && NoDemandedOneof(s) && AcceptsO(ToOpenAi(s), v)
    ensures SuppliesAll(s, DropUnset(s, v))
    decreases v
  {
    match v {
      case Obj(fields) =>
        ObjectMeaning(s, fields);
        forall k | k in fields
          ensures
            if k in s.props then
              (if fields[k].Null? then MayBeNull(s, k) else SuppliesAll(s.props[k], DropUnset(s.props[k], fields[k])))
            else s.extra.Typed? ==> SuppliesAll(s.extra.value, DropUnset(s.extra.value, fields[k]))
        {
          if k in s.props {
            PropMeaning(s, k, fields[k]);
            if !fields[k].Null? {
              RenderingSupplies(s.props[k], fields[k]);
            }
          } else if s.extra.Typed? {
            RenderingSupplies(s.extra.value, fields[k]);
          }
        }
        ObjectSuppliesAll(s, fields);
      case Arr(items) =>
        ArrayMeaning(s, items);
        forall i | 0 <= i < |items|
          ensures SuppliesAll(s.items.value, DropUnset(s.items.value, items[i]))
        {
          RenderingSupplies(s.items.value, items[i]);
        }
      case _ =>
    }
  }

  // ---------------------------------------------------------------------------
  // From the schema to the rendering
  // ---------------------------------------------------------------------------

  ghost predicate PadsOk(s: Schema, u: Json) {
    AcceptsO(ToOpenAi(s), Pad(s, u)) && DropUnset(s, Pad(s, u)) == u
  }

  /** The fields of an accepted object can be padded. */
  ghost predicate FieldsPad(s: Schema, fields: map<string, Json>) {
    forall k | k in fields ::
      if k in s.props then !fields[k].Null? && PadsOk(s.props[k], fields[k])
      else s.extra.Typed? ==> PadsOk(s.extra.value, fields[k])
  }

  lemma PadNull(s: Schema, u: Json)
    ensures Pad(s, u).Null? <==> u.Null?
  {
  }

  lemma PaddedObjectOk(s: Schema, fields: map<string, Json>)
    requires s.typ == ObjectT && Accepts(s, Obj(fields)) && Supplies(s, Obj(fields)) && FieldsPad(s, fields)
    ensures ObjectOk(s, Pad(s, Obj(fields)).fields)
  {
    var p := Pad(s, Obj(fields)).fields;
    forall k | k in p && k in s.props
      ensures AcceptsO(RenderedProp(s, k), p[k])
    {
      PropMeaning(s, k, p[k]);
    }
  }

  lemma PaddedObjectDrops(s: Schema, fields: map<string, Json>)
    requires FieldsPad(s, fields)
    ensures DropUnset(s, Pad(s, Obj(fields))) == Obj(fields)
  {
    var p := Pad(s, Obj(fields)).fields;
    var w := DropUnset(s, Obj(p)).fields;
    forall k | k in fields && k in s.props
      ensures !p[k].Null?
    {
      PadNull(s.props[k], fields[k]);
    }
    assert w.Keys == fields.Keys;
    forall k | k in fields
      ensures w[k] == fields[k]
    {
    }
  }

  lemma PaddedArray(s: Schema, items: seq<Json>)
    requires IrForm(s) && s.typ == ArrayT
    requires forall i | 0 <= i < |items| :: PadsOk(s.items.value, items[i])
    ensures PadsOk(s, Arr(items))
  {
    ArrayMeaning(s, Pad(s, Arr(items)).items);
    assert DropUnset(s, Pad(s, Arr(items))).items == items;
  }

  /** Any value the schema accepts that supplies what validation demands can be padded
      with nulls into one the rendering accepts, and dropping them gives it back. */
  lemma {:induction false} RenderingComplete(s: Schema, u: Json)
    requires IrForm(s) && Accepts(s, u) && Supplies(s, u)
    ensures PadsOk(s, u)
    decreases u
  {
    match u {
      case Obj(fields) =>
        forall k | k in fields
          ensures if k in s.props then !fields[k].Null? && PadsOk(s.props[k], fields[k])
                  else s.extra.Typed? ==> PadsOk(s.extra.value, fields[k])
        {
          if k in s.props {
            RenderingComplete(s.props[k], fields[k]);
          } else if s.extra.Typed? {
            RenderingComplete(s.extra.value, fields[k]);
          }
        }
        PaddedObjectOk(s, fields);
        ObjectMeaning(s, Pad(s, u).fields);
        PaddedObjectDrops(s, fields);
      case Arr(items) =>
        forall i | 0 <= i < |items|
          ensures PadsOk(s.items.value, items[i])
        {
          RenderingComplete(s.items.value, items[i]);
        }
        PaddedArray(s, items);
      case _ =>
        ScalarMeaning(s, u);
    }
  }

  /** The rendering accepts exactly the padded forms of what the schema accepts. */
  lemma {:induction false} RenderingExact(s: Schema, v: Json)
    requires IrForm(s) && NoRequiredOneof(s)
    ensures AcceptsO(ToOpenAi(s), v) <==> exists u :: Accepts(s, u) && Supplies(s, u) && Pad(s, u) == v
  {
    if AcceptsO(ToOpenAi(s), v) {
      RenderingSound(s, v);
      var u := DropUnset(s, v);
      assert Accepts(s, u) && Supplies(s, u) && Pad(s, u) == v;
    }
    forall u | Accepts(s, u) && Supplies(s, u) && Pad(s, u) == v
      ensures AcceptsO(ToOpenAi(s), v)
    {
      RenderingComplete(s, u);
    }
  }

  // ---------------------------------------------------------------------------
  // The condition on oneofs is exact
  // ---------------------------------------------------------------------------

  /** A value the rendering accepts, without any oneof member. */
  ghost function Sample(s: Schema): Json {
    match s.typ
    case ObjectT => Obj(map k | k in s.props && k !in s.oneofMembers :: Sample(s.props[k]))
    case ArrayT => Arr([])
    case StringT => Str(if s.enum == [] then "" else s.enum[0])
    case BooleanT => Bool(false)
    case IntegerT => Num(0.0)
    case NumberT => Num(0.0)
  }

  lemma {:induction false} SampleAccepted(s: Schema)
    requires IrForm(s)
    ensures AcceptsO(ToOpenAi(s), Sample(s))
  {
    match s.typ {
      case ObjectT =>
        var fields := Sample(s).fields;
        forall k | k in fields
          ensures AcceptsO(RenderedProp(s, k), fields[k])
        {
          SampleAccepted(s.props[k]);
          PropMeaning(s, k, fields[k]);
        }
        ObjectMeaning(s, fields);
      case ArrayT =>
        ArrayMeaning(s, []);
      case _ =>
        ScalarMeaning(s, Sample(s));
    }
  }

  /** The rendering accepts v, but the schema refuses it without its unset properties. */
  ghost predicate Breaks(s: Schema, v: Json) {
    AcceptsO(ToOpenAi(s), v) && !Accepts(s, DropUnset(s, v))
  }

  lemma ReplacedFieldOk(s: Schema, fields: map<string, Json>, k: string, x: Json)
    requires ObjectOk(s, fields) && k in s.props && AcceptsO(RenderedProp(s, k), x)
    ensures ObjectOk(s, fields[k := x])
  {
  }

  lemma PlantedFieldAccepted(s: Schema, k: string, x: Json)
    requires IrForm(s) && s.typ == ObjectT && k in s.props && AcceptsO(ToOpenAi(s.props[k]), x)
    ensures AcceptsO(ToOpenAi(s), Obj(Sample(s).fields[k := x]))
  {
    SampleAccepted(s);
    ObjectMeaning(s, Sample(s).fields);
    PropMeaning(s, k, x);
    ReplacedFieldOk(s, Sample(s).fields, k, x);
    ObjectMeaning(s, Sample(s).fields[k := x]);
  }

  lemma RefusedField(s: Schema, fields: map<string, Json>, k: string)
    requires k in s.props && k in fields && !fields[k].Null?
    requires !Accepts(s.props[k], DropUnset(s.props[k], fields[k]))
    ensures !Accepts(s, DropUnset(s, Obj(fields)))
  {
    var u := DropUnset(s, Obj(fields));
    assert k in u.fields && u.fields[k] == DropUnset(s.props[k], fields[k]);
  }

  lemma BreaksField(s: Schema, k: string, x: Json)
    requires IrForm(s) && s.typ == ObjectT && k in s.props && Breaks(s.props[k], x)
    ensures Breaks(s, Obj(Sample(s).fields[k := x]))
  {
    PropMeaning(s, k, x);
    PlantedFieldAccepted(s, k, x);
    RefusedField(s, Sample(s).fields[k := x], k);
  }

  lemma BreaksItem(s: Schema, x: Json)
    requires IrForm(s) && s.items.Some? && Breaks(s.items.value, x)
    ensures Breaks(s, Arr([x]))
  {
    ArrayMeaning(s, [x]);
    var u := DropUnset(s, Arr([x]));
    assert u.items[0] == DropUnset(s.items.value, x);
  }

  lemma LoneExtraDrops(s: Schema, x: Json)
    requires s.extra.Typed? && "" !in s.props
    ensures DropUnset(s, Obj(map["" := x])) == Obj(map["" := DropUnset(s.extra.value, x)])
  {
    assert DropUnset(s, Obj(map["" := x])).fields == map["" := DropUnset(s.extra.value, x)];
  }

  /** An object whose only property is an undeclared one. */
  lemma LoneExtra(s: Schema, x: Json)
    requires IrForm(s) && s.extra.Typed?
    ensures AcceptsO(ToOpenAi(s), Obj(map["" := x])) <==> AcceptsO(ToOpenAi(s.extra.value), x)
    ensures DropUnset(s, Obj(map["" := x])) == Obj(map["" := DropUnset(s.extra.value, x)])
  {
    ObjectMeaning(s, map["" := x]);
    LoneExtraDrops(s, x);
  }

  lemma BreaksExtra(s: Schema, x: Json)
    requires IrForm(s) && s.extra.Typed? && Breaks(s.extra.value, x)
    ensures Breaks(s, Obj(map["" := x]))
  {
    LoneExtra(s, x);
    assert "" in map["" := DropUnset(s.extra.value, x)];
  }

  lemma MissingRequired(s: Schema, fields: map<string, Json>, k: string)
    requires k in s.required && k !in fields
    ensures !Accepts(s, Obj(fields))
  {
  }

  lemma DroppedSampleLacks(s: Schema, k: string)
    requires s.typ == ObjectT && k in s.oneofMembers
    ensures DropUnset(s, Sample(s)).Obj? && k !in DropUnset(s, Sample(s)).fields
  {
  }

  lemma BreaksHere(s: Schema, k: string)
    requires IrForm(s) && k in s.required && k in s.oneofMembers
    ensures Breaks(s, Sample(s))
  {
    SampleAccepted(s);
    DroppedSampleLacks(s, k);
    var u := DropUnset(s, Sample(s));
    MissingRequired(s, u.fields, k);
    assert u == Obj(u.fields);
  }

  /** Where some required property is a oneof member, the rendering lets through a value
      that the schema refuses. */
  lemma {:induction false} RequiredOneofBreaks(s: Schema) returns (v: Json)
    requires IrForm(s) && !NoRequiredOneof(s)
    ensures Breaks(s, v)
  {
    if k :| k in s.required && k in s.oneofMembers {
      v := Sample(s);
      BreaksHere(s, k);
    } else if k :| k in s.props && !NoRequiredOneof(s.props[k]) {
      var x := RequiredOneofBreaks(s.props[k]);
      v := Obj(Sample(s).fields[k := x]);
      BreaksField(s, k, x);
    } else if s.items.Some? {
      var x := RequiredOneofBreaks(s.items.value);
      v := Arr([x]);
      BreaksItem(s, x);
    } else {
      var x := RequiredOneofBreaks(s.extra.value);
      v := Obj(map["" := x]);
      BreaksExtra(s, x);
    }
  }

  /** Reading null as unset, the rendering means no more than the schema exactly when no
      required property belongs to a oneof. */
  lemma {:induction false} SoundExactlyWhen(s: Schema)
    requires IrForm(s)
    ensures (forall v :: AcceptsO(ToOpenAi(s), v) ==> Accepts(s, DropUnset(s, v))) <==> NoRequiredOneof(s)
  {
    if NoRequiredOneof(s) {
      forall v | AcceptsO(ToOpenAi(s), v)
        ensures Accepts(s, DropUnset(s, v))
      {
        RenderingSound(s, v);
      }
    } else {
      var v := RequiredOneofBreaks(s);
      assert AcceptsO(ToOpenAi(s), v) && !Accepts(s, DropUnset(s, v));
    }
  }

  /** The rendering accepts v, but without its unset properties validation misses one. */
  ghost predicate Lacks(s: Schema, v: Json) {
    AcceptsO(ToOpenAi(s), v) && !SuppliesAll(s, DropUnset(s, v))
  }

  lemma UnsuppliedField(s: Schema, fields: map<string, Json>, k: string)
    requires k in s.props && k in fields && !fields[k].Null?
    requires !SuppliesAll(s.props[k], DropUnset(s.props[k], fields[k]))
    ensures !SuppliesAll(s, DropUnset(s, Obj(fields)))
  {
    var u := DropUnset(s, Obj(fields));
    assert k in u.fields && u.fields[k] == DropUnset(s.props[k], fields[k]);
  }

  lemma LacksField(s: Schema, k: string, x: Json)
    requires IrForm(s) && s.typ == ObjectT && k in s.props && Lacks(s.props[k], x)
    ensures Lacks(s, Obj(Sample(s).fields[k := x]))
  {
    PropMeaning(s, k, x);
    PlantedFieldAccepted(s, k, x);
    UnsuppliedField(s, Sample(s).fields[k := x], k);
  }

  lemma LacksItem(s: Schema, x: Json)
    requires IrForm(s) && s.items.Some? && Lacks(s.items.value, x)
    ensures Lacks(s, Arr([x]))
  {
    ArrayMeaning(s, [x]);
    var u := DropUnset(s, Arr([x]));
    assert u.items[0] == DropUnset(s.items.value, x);
  }

  lemma LacksExtra(s: Schema, x: Json)
    requires IrForm(s) && s.extra.Typed? && Lacks(s.extra.value, x)
    ensures Lacks(s, Obj(map["" := x]))
  {
    LoneExtra(s, x);
    assert "" in map["" := DropUnset(s.extra.value, x)];
  }

  lemma LacksHere(s: Schema, k: string)
    requires IrForm(s) && k in s.nonNullable && k in s.oneofMembers
    ensures Lacks(s, Sample(s))
  {
    SampleAccepted(s);
    DroppedSampleLacks(s, k);
    var u := DropUnset(s, Sample(s));
    assert u == Obj(u.fields) && k in s.props;
  }

  /** Where validation demands some oneof member, the rendering lets through a value
      without it. */
  lemma {:induction false} DemandedOneofLacks(s: Schema) returns (v: Json)
    requires IrForm(s) && !NoDemandedOneof(s)
    ensures Lacks(s, v)
  {
    if k :| k in s.nonNullable && k in s.oneofMembers {
      v := Sample(s);
      LacksHere(s, k);
    } else if k :| k in s.props && !NoDemandedOneof(s.props[k]) {
      var x := DemandedOneofLacks(s.props[k]);
      v := Obj(Sample(s).fields[k := x]);
      LacksField(s, k, x);
    } else if s.items.Some? {
      var x := DemandedOneofLacks(s.items.value);
      v := Arr([x]);
      LacksItem(s, x);
    } else {
      var x := DemandedOneofLacks(s.extra.value);
      v := Obj(map["" := x]);
      LacksExtra(s, x);
    }
  }

  /** What the rendering accepts has all that validation demands exactly when validation
      demands no oneof member. */
  lemma {:induction false} SuppliesExactlyWhen(s: Schema)
    requires IrForm(s)
    ensures (forall v :: AcceptsO(ToOpenAi(s), v) ==> SuppliesAll(s, DropUnset(s, v))) <==> NoDemandedOneof(s)
  {
    if NoDemandedOneof(s) {
      forall v | AcceptsO(ToOpenAi(s), v)
        ensures SuppliesAll(s, DropUnset(s, v))
      {
        RenderingSupplies(s, v);
      }
    } else {
      var v := DemandedOneofLacks(s);
      assert AcceptsO(ToOpenAi(s), v) && !SuppliesAll(s, DropUnset(s, v));
    }
  }

  /** The rendering drops no requirement, of the schema or of validation, exactly when
      neither makes one of a oneof member. */
  lemma {:induction false} NothingDroppedExactlyWhen(s: Schema)
    requires IrForm(s)
    ensures
      (forall v :: AcceptsO(ToOpenAi(s), v) ==> Accepts(s, DropUnset(s, v)) && SuppliesAll(s, DropUnset(s, v))) <==>
      NoRequiredOneof(s) && NoDemandedOneof(s)
  {
    SoundExactlyWhen(s);
    SuppliesExactlyWhen(s);
  }

  // ---------------------------------------------------------------------------
  // Both failures from descriptors
  // ---------------------------------------------------------------------------

  const CHOICE := Named("Choice")

  /** One message with one string field, the only member of a oneof. */
  function Choice(ai: Option<AiField>, rules: Option<Rules>): Graph {
    map[CHOICE := Message([Field("k", Singular, StringKind, ai, rules, true)], [Oneof(false, [0])])]
  }

  function ChoiceSchema(required: bool, demanded: bool): Schema {
    Schema(ObjectT, "", map["k" := Leaf(StringT)], if required then ["k"] else [], None, [], Closed,
           {"k"}, if demanded then {"k"} else {})
  }

  lemma ChoiceBuilds(ai: Option<AiField>, rules: Option<Rules>)
    requires ai.Some? ==> ai.value.description == ""
    ensures GraphOk(Choice(ai, rules))
    ensures ForMessage(Choice(ai, rules), CHOICE, 0) ==
            Ok(ChoiceSchema(ai.Some? && ai.value.required, ValidateRequires(Choice(ai, rules)[CHOICE].fields[0])))
  {
    var g := Choice(ai, rules);
    var m := g[CHOICE];
    assert ForField(g, m.fields[0], 1) == Ok(Leaf(StringT));
    assert ForFields(g, CHOICE, 0, 0) == Ok(Leaf(ObjectT));
    assert ForFields(g, CHOICE, 0, 1) == Ok(AddField(Leaf(ObjectT), m.fields[0], Leaf(StringT)));
    assert MemberNames(m, [0]) == {"k"} by {
      assert m.fields[[0][0]].jsonName == "k";
    }
    assert RealMembers(m, 1) == {} + {"k"};
  }

  lemma ChoiceShape(required: bool, demanded: bool)
    ensures
      var s := ChoiceSchema(required, demanded);
      && IrForm(s) && Sample(s) == Obj(map[])
      && (NoRequiredOneof(s) <==> !required) && (NoDemandedOneof(s) <==> !demanded)
  {
    var s := ChoiceSchema(required, demanded);
    assert IrForm(Leaf(StringT)) && NoRequiredOneof(Leaf(StringT)) && NoDemandedOneof(Leaf(StringT));
    assert required ==> "k" in s.required;
    assert demanded ==> "k" in s.nonNullable;
    assert Sample(s).fields == map[];
  }

  /** A oneof member marked ai_field.required: the rendering accepts an empty object and
      the schema does not. */
  lemma {:induction false} RequiredOneofExample()
    ensures
      var g := Choice(Some(AiField("", true)), None);
      && GraphOk(g) && ForMessage(g, CHOICE, 0).Ok?
      && var s := ForMessage(g, CHOICE, 0).schema;
         NoDemandedOneof(s) && !NoRequiredOneof(s) && Breaks(s, Obj(map[]))
  {
    ChoiceBuilds(Some(AiField("", true)), None);
    ChoiceShape(true, false);
    BreaksHere(ChoiceSchema(true, false), "k");
  }

  /** A oneof member that validation requires: the rendering and the schema accept an
      empty object, and validation misses the member. */
  lemma {:induction false} DemandedOneofExample()
    ensures
      var g := Choice(None, Some(Rules(IgnoreUnspecified, true, 0, 0)));
      && GraphOk(g) && ForMessage(g, CHOICE, 0).Ok?
      && var s := ForMessage(g, CHOICE, 0).schema;
         NoRequiredOneof(s) && !NoDemandedOneof(s) && Lacks(s, Obj(map[]))
  {
    ChoiceBuilds(None, Some(Rules(IgnoreUnspecified, true, 0, 0)));
    ChoiceShape(false, true);
    LacksHere(ChoiceSchema(false, true), "k");
  }

  // ---------------------------------------------------------------------------
  // Strict mode
  // ---------------------------------------------------------------------------

  /** Every object node is closed and requires all its properties. */
  ghost predicate AllObjectsStrict(o: OSchema) {
    && (o.typ.t == ObjectT ==>
         && o.extra == Flag(false) && o.required.Some?
         && forall k | k in o.props :: k in o.required.value)
    && (forall k | k in o.props :: AllObjectsStrict(o.props[k]))
    && (o.items.Some? ==> AllObjectsStrict(o.items.value))
    && (o.extra.OTyped? ==> AllObjectsStrict(o.extra.value))
  }

  lemma NullableStrict(o: OSchema)
    requires o.typ.Single?
    ensures AllObjectsStrict(Nullable(o)) <==> AllObjectsStrict(o)
  {
  }

  lemma PropStrict(s: Schema, k: string)
    requires k in s.props
    ensures AllObjectsStrict(RenderedProp(s, k)) <==> AllObjectsStrict(ToOpenAi(s.props[k]))
  {
    NullableStrict(ToOpenAi(s.props[k]));
  }

  lemma ObjectStrict(s: Schema)
    requires IrForm(s) && s.typ == ObjectT
    requires forall k | k in s.props :: StrictCompatible(s.props[k]) <==> AllObjectsStrict(RenderedProp(s, k))
    ensures StrictCompatible(s) <==> AllObjectsStrict(ToOpenAi(s))
  {
    var o := ToOpenAi(s);
    RenderedShape(s);
    assert o.items.None?;
    if StrictCompatible(s) {
      assert AllObjectsStrict(o);
    }
    if AllObjectsStrict(o) {
      assert forall k | k in s.oneofMembers :: k in o.props;
      assert s.oneofMembers == {};
      assert StrictCompatible(s);
    }
  }

  /** The strict flag is true exactly when every object of the rendering is strict. */
  lemma {:induction false} StrictExactly(s: Schema)
    requires IrForm(s)
    ensures StrictCompatible(s) <==> AllObjectsStrict(ToOpenAi(s))
  {
    forall k | k in s.props
      ensures StrictCompatible(s.props[k]) <==> AllObjectsStrict(RenderedProp(s, k))
    {
      StrictExactly(s.props[k]);
      PropStrict(s, k);
    }
    if s.items.Some? {
      StrictExactly(s.items.value);
    }
    if s.typ == ObjectT {
      ObjectStrict(s);
    }
  }

  /** Null properties dropped at every depth, without looking at a schema. */
  function DropNulls(v: Json): Json {
    match v
    case Obj(fields) => Obj(map k | k in fields && !fields[k].Null? :: DropNulls(fields[k]))
    case Arr(items) => Arr(seq(|items|, i requires 0 <= i < |items| => DropNulls(items[i])))
    case _ => v
  }

  lemma ObjectDropIsPlain(s: Schema, fields: map<string, Json>)
    requires forall k | k in fields ::
      k in s.props && (!fields[k].Null? ==> DropUnset(s.props[k], fields[k]) == DropNulls(fields[k]))
    ensures DropUnset(s, Obj(fields)) == DropNulls(Obj(fields))
  {
    assert DropUnset(s, Obj(fields)).fields == DropNulls(Obj(fields)).fields;
  }

  lemma StrictFieldDeclared(s: Schema, fields: map<string, Json>, k: string)
    requires IrForm(s) && StrictCompatible(s) && s.typ == ObjectT && AcceptsO(ToOpenAi(s), Obj(fields)) && k in fields
    ensures k in s.props && (fields[k].Null? || AcceptsO(ToOpenAi(s.props[k]), fields[k]))
  {
    ObjectMeaning(s, fields);
    if k in s.props {
      PropMeaning(s, k, fields[k]);
    }
  }

  lemma {:induction false} StrictDropIsPlain(s: Schema, v: Json)
    requires IrForm(s) && StrictCompatible(s) && AcceptsO(ToOpenAi(s), v)
    ensures DropUnset(s, v) == DropNulls(v)
    decreases v
  {
    match v {
      case Obj(fields) =>
        forall k | k in fields
          ensures k in s.props && (!fields[k].Null? ==> DropUnset(s.props[k], fields[k]) == DropNulls(fields[k]))
        {
          StrictFieldDeclared(s, fields, k);
          if !fields[k].Null? {
            StrictDropIsPlain(s.props[k], fields[k]);
          }
        }
        ObjectDropIsPlain(s, fields);
      case Arr(items) =>
        ArrayMeaning(s, items);
        forall i | 0 <= i < |items|
          ensures DropUnset(s.items.value, items[i]) == DropNulls(items[i])
        {
          StrictDropIsPlain(s.items.value, items[i]);
        }
        assert DropUnset(s, v).items == DropNulls(v).items;
      case _ =>
    }
  }

  lemma {:induction false} StrictHasNoOneofs(s: Schema)
    requires StrictCompatible(s)
    ensures NoRequiredOneof(s) && NoDemandedOneof(s)
  {
    forall k | k in s.props
      ensures NoRequiredOneof(s.props[k]) && NoDemandedOneof(s.props[k])
    {
      StrictHasNoOneofs(s.props[k]);
    }
    if s.items.Some? {
      StrictHasNoOneofs(s.items.value);
    }
  }

  /** From descriptors to strict form: for every message whose schema is built and flagged
      strict, what OpenAI may send is, without its nulls, exactly the JSON form of the
      message with nothing missing that validation refuses to leave unset. */
  lemma {:induction false} StrictToolsMeanTheSame(g: Graph, m: TypeName, v: Json, u: Json)
    requires GraphOk(g) && m in g && ForMessage(g, m, 0).Ok?
    requires StrictCompatible(ForMessage(g, m, 0).schema)
    ensures
      var s := ForMessage(g, m, 0).schema;
      && AllObjectsStrict(ToOpenAi(s))
      && (AcceptsO(ToOpenAi(s), v) ==> MessageForm(g, m, DropNulls(v)) && SuppliesAll(s, DropNulls(v)) && Pad(s, DropNulls(v)) == v)
      && (MessageForm(g, m, u) && SuppliesAll(s, u) ==> AcceptsO(ToOpenAi(s), Pad(s, u)) && DropNulls(Pad(s, u)) == u)
  {
    var s := ForMessage(g, m, 0).schema;
    MessageIr(g, m, 0);
    StrictExactly(s);
    StrictHasNoOneofs(s);
    SchemaAcceptsExactly(g, m, 0, DropNulls(v));
    SchemaAcceptsExactly(g, m, 0, u);
    if AcceptsO(ToOpenAi(s), v) {
      RenderingSound(s, v);
      RenderingSupplies(s, v);
      StrictDropIsPlain(s, v);
    }
    if Accepts(s, u) && SuppliesAll(s, u) {
      AllIsMore(s, u);
      RenderingComplete(s, u);
      StrictDropIsPlain(s, Pad(s, u));
    }
  }
}
