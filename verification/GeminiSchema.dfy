/** JSON Schema to Gemini's declaration schema (`apps/api/src/services/ai/geminiSchema.ts`),
    as a compiler whose source and target languages both have a meaning: the set of JSON
    values a schema accepts.
 */
module GeminiSchema {
  import opened Common

  datatype Json =
    | JNull
    | JBool(bool)
    | JNumber(number: real)
    | JString(text: string)
    | JArray(elements: seq<Json>)
    | JObject(fields: seq<Field>)

  /** An object is its entries in order, as `Object.entries` lists them. */
  datatype Field = Field(key: string, value: Json)

  datatype GeminiType = GString | GNumber | GInteger | GBoolean | GArray | GObject

  datatype Properties = Absent | Present(list: seq<Property>)

  datatype Property = Property(key: string, schema: Schema)

  datatype Schema = Schema(
    kind: GeminiType, description: Option<string>, nullable: bool, enumeration: Option<seq<string>>,
    properties: Properties, required: Option<seq<string>>, items: Option<Schema>)

  datatype Error =
    | NotASchemaObject | StructuralKeyword(key: string) | MultiType | NullOnly | UnknownType
    | EnumOnNonString | EnumOfNonStrings | ArrayWithoutItems | RootNotAnObject

  type Result<+T> = Common.Result<T, Error>

  const STRUCTURAL_KEYS := [
    "anyOf", "oneOf", "allOf", "not", "$ref", "$defs", "definitions", "if", "then", "else",
    "patternProperties", "propertyNames", "dependentSchemas", "prefixItems", "const"]

  function Lookup(fields: seq<Field>, key: string): (r: Option<Json>)
    ensures r.Some? <==> exists i :: 0 <= i < |fields| && fields[i].key == key
    ensures r.Some? ==> exists i :: 0 <= i < |fields| && fields[i] == Field(key, r.value)
  {
    if fields == [] then None
    else if fields[0].key == key then Some(fields[0].value)
    else
      var r := Lookup(fields[1..], key);
      assert forall i | 1 <= i < |fields| :: fields[i] == fields[1..][i - 1];
      r
  }

  // ---- Conversion ----

  function AsGeminiType(raw: Json): Result<GeminiType> {
    if raw == JString("string") then Ok(GString)
    else if raw == JString("number") then Ok(GNumber)
    else if raw == JString("integer") then Ok(GInteger)
    else if raw == JString("boolean") then Ok(GBoolean)
    else if raw == JString("array") then Ok(GArray)
    else if raw == JString("object") then Ok(GObject)
    else if raw == JString("null") then Err(NullOnly)
    else Err(UnknownType)
  }

  function WithoutNull(types: seq<Json>): seq<Json> {
    if types == [] then []
    else (if types[0] == JString("null") then [] else [types[0]]) + WithoutNull(types[1..])
  }

  function TypeOf(fields: seq<Field>): Result<GeminiType> {
    match Lookup(fields, "type")
    case None => Ok(GString)
    case Some(JArray(raw)) =>
      if |WithoutNull(raw)| != 1 then Err(MultiType) else AsGeminiType(WithoutNull(raw)[0])
    case Some(raw) => AsGeminiType(raw)
  }

  predicate IsNullable(fields: seq<Field>) {
    match Lookup(fields, "type")
    case Some(JArray(raw)) => JString("null") in raw
    case _ => false
  }

  function Texts(values: seq<Json>): seq<string> {
    if values == [] then []
    else (if values[0].JString? then [values[0].text] else []) + Texts(values[1..])
  }

  predicate AllStrings(values: seq<Json>) {
    forall v | v in values :: v.JString?
  }

  function FirstStructural(fields: seq<Field>): Option<string> {
    if fields == [] then None
    else if fields[0].key in STRUCTURAL_KEYS then Some(fields[0].key)
    else FirstStructural(fields[1..])
  }

  function EnumOf(fields: seq<Field>, kind: GeminiType): Result<Option<seq<string>>> {
    match Lookup(fields, "enum")
    case Some(JArray(values)) =>
      if kind != GString then Err(EnumOnNonString)
      else if !AllStrings(values) then Err(EnumOfNonStrings)
      else Ok(Some(Texts(values)))
    case _ => Ok(None)
  }

  function DescriptionOf(fields: seq<Field>): Option<string> {
    match Lookup(fields, "description")
    case Some(JString(text)) => if text == "" then None else Some(text)
    case _ => None
  }

  function RequiredOf(fields: seq<Field>): Option<seq<string>> {
    match Lookup(fields, "required")
    case Some(JArray(values)) => Some(Texts(values))
    case _ => None
  }

  function PropertiesOf(fields: seq<Field>): (r: Option<seq<Field>>)
    ensures r.Some? ==> Lookup(fields, "properties") == Some(JObject(r.value))
  {
    match Lookup(fields, "properties")
    case Some(JObject(children)) => Some(children)
    case _ => None
  }

  /** `convert` on one node. */
  function Convert(node: Json): Result<Schema>
    decreases node
  {
    if !node.JObject? then Err(NotASchemaObject)
    else
      var fields := node.fields;
      var structural := FirstStructural(fields);
      if structural.Some? then Err(StructuralKeyword(structural.value))
      else
        var kind := TypeOf(fields);
        if kind.Err? then Err(kind.error)
        else
          var enumeration := EnumOf(fields, kind.value);
          if enumeration.Err? then Err(enumeration.error)
          else
            var leaf := Schema(kind.value, DescriptionOf(fields), IsNullable(fields), enumeration.value, Absent, None, None);
            if kind.value.GObject? then ConvertObject(node, leaf)
            else if kind.value.GArray? then ConvertArray(node, leaf)
            else Ok(leaf)
  }

  function ConvertObject(node: Json, leaf: Schema): Result<Schema>
    requires node.JObject?
    decreases node, 0
  {
    var children := PropertiesOf(node.fields);
    if children.None? then Ok(leaf.(required := RequiredOf(node.fields)))
    else
      var properties := ConvertFields(children.value);
      if properties.Err? then Err(properties.error)
      else Ok(leaf.(properties := Present(properties.value), required := RequiredOf(node.fields)))
  }

  function ConvertArray(node: Json, leaf: Schema): Result<Schema>
    requires node.JObject?
    decreases node, 0
  {
    match Lookup(node.fields, "items")
    case None => Err(ArrayWithoutItems)
    case Some(items) =>
      var converted := Convert(items);
      if converted.Err? then Err(converted.error) else Ok(leaf.(items := Some(converted.value)))
  }

  function ConvertFields(children: seq<Field>): Result<seq<Property>>
    decreases children
  {
    if children == [] then Ok([])
    else
      var first := Convert(children[0].value);
      if first.Err? then Err(first.error)
      else
        var rest := ConvertFields(children[1..]);
        if rest.Err? then Err(rest.error) else Ok([Property(children[0].key, first.value)] + rest.value)
  }

  /** `toGeminiSchema`: a tool's parameters must be an object. */
  function ToGeminiSchema(root: Json): Result<Schema> {
    var converted := Convert(root);
    if converted.Ok? && !converted.value.kind.GObject? then Err(RootNotAnObject) else converted
  }

  // ---- What a JSON Schema accepts ----

  predicate HasType(name: string, v: Json) {
    match v
    case JNull => name == "null"
    case JBool(_) => name == "boolean"
    case JNumber(n) => name == "number" || (name == "integer" && n.Floor as real == n)
    case JString(_) => name == "string"
    case JArray(_) => name == "array"
    case JObject(_) => name == "object"
  }

  predicate TypeAccepts(fields: seq<Field>, v: Json) {
    match Lookup(fields, "type")
    case None => true
    case Some(JArray(types)) => exists i :: 0 <= i < |types| && types[i].JString? && HasType(types[i].text, v)
    case Some(JString(name)) => HasType(name, v)
    case Some(_) => false
  }

  predicate EnumAccepts(fields: seq<Field>, v: Json) {
    match Lookup(fields, "enum")
    case Some(JArray(values)) => v in values
    case _ => true
  }

  predicate RequiredAccepts(fields: seq<Field>, v: Json) {
    v.JObject? && RequiredOf(fields).Some? ==>
      forall key | key in RequiredOf(fields).value :: Lookup(v.fields, key).Some?
  }

  /** The meaning of a schema node, whatever the dropped keywords (bounds, patterns,
      `additionalProperties`, ...) may demand of a value: that part is `dropped`. */
  ghost predicate Accepts(dropped: (Json, Json) -> bool, node: Json, v: Json)
    decreases node, 1
  {
    node.JObject?
    && dropped(node, v)
    && TypeAccepts(node.fields, v) && EnumAccepts(node.fields, v) && RequiredAccepts(node.fields, v)
    && (v.JObject? && PropertiesOf(node.fields).Some? ==>
          AcceptsFields(dropped, PropertiesOf(node.fields).value, v.fields))
    && (v.JArray? && Lookup(node.fields, "items").Some? ==>
          forall i | 0 <= i < |v.elements| :: Accepts(dropped, Lookup(node.fields, "items").value, v.elements[i]))
  }

  ghost predicate AcceptsFields(dropped: (Json, Json) -> bool, children: seq<Field>, members: seq<Field>)
    decreases children, 0
  {
    children == []
    || ((Lookup(members, children[0].key).Some? ==>
           Accepts(dropped, children[0].value, Lookup(members, children[0].key).value))
        && AcceptsFields(dropped, children[1..], members))
  }

  // ---- What a Gemini schema accepts ----

  predicate KindAccepts(kind: GeminiType, v: Json) {
    match kind
    case GString => v.JString?
    case GNumber => v.JNumber?
    case GInteger => v.JNumber? && v.number.Floor as real == v.number
    case GBoolean => v.JBool?
    case GArray => v.JArray?
    case GObject => v.JObject?
  }

  ghost predicate GeminiAccepts(g: Schema, v: Json)
    decreases g, 1
  {
    if v.JNull? then g.nullable
    else
      && KindAccepts(g.kind, v)
      && (g.enumeration.Some? ==> v.JString? && v.text in g.enumeration.value)
      && (v.JObject? && g.required.Some? ==> forall key | key in g.required.value :: Lookup(v.fields, key).Some?)
      && (v.JObject? && g.properties.Present? ==> GeminiAcceptsFields(g.properties.list, v.fields))
      && (v.JArray? && g.items.Some? ==>
            forall i | 0 <= i < |v.elements| :: GeminiAccepts(g.items.value, v.elements[i]))
  }

  ghost predicate GeminiAcceptsFields(properties: seq<Property>, members: seq<Field>)
    decreases properties, 0
  {
    properties == []
    || ((Lookup(members, properties[0].key).Some? ==>
           GeminiAccepts(properties[0].schema, Lookup(members, properties[0].key).value))
        && GeminiAcceptsFields(properties[1..], members))
  }

  // ---- Conditions at every node the conversion visits ----

  /** A predicate of a node's own fields, at the node and below. */
  ghost predicate Everywhere(p: seq<Field> -> bool, node: Json)
    decreases node, 1
  {
    node.JObject? && p(node.fields)
    && (TypeOf(node.fields) == Ok(GObject) && PropertiesOf(node.fields).Some? ==>
          EverywhereIn(p, PropertiesOf(node.fields).value))
    && (TypeOf(node.fields) == Ok(GArray) && Lookup(node.fields, "items").Some? ==>
          Everywhere(p, Lookup(node.fields, "items").value))
  }

  ghost predicate EverywhereIn(p: seq<Field> -> bool, children: seq<Field>)
    decreases children, 0
  {
    children == [] || (Everywhere(p, children[0].value) && EverywhereIn(p, children[1..]))
  }

  predicate Typed(fields: seq<Field>) {
    Lookup(fields, "type").Some?
  }

  predicate NoNullableEnum(fields: seq<Field>) {
    IsNullable(fields) ==> !(Lookup(fields, "enum").Some? && Lookup(fields, "enum").value.JArray?)
  }

  /** The dropped constraints hold of the value and of every part the schema describes. */
  ghost predicate DroppedHold(dropped: (Json, Json) -> bool, node: Json, v: Json)
    decreases node, 1
  {
    node.JObject?
    && dropped(node, v)
    && (v.JObject? && PropertiesOf(node.fields).Some? ==>
          DroppedHoldIn(dropped, PropertiesOf(node.fields).value, v.fields))
    && (v.JArray? && Lookup(node.fields, "items").Some? ==>
          forall i | 0 <= i < |v.elements| :: DroppedHold(dropped, Lookup(node.fields, "items").value, v.elements[i]))
  }

  ghost predicate DroppedHoldIn(dropped: (Json, Json) -> bool, children: seq<Field>, members: seq<Field>)
    decreases children, 0
  {
    children == []
    || ((Lookup(members, children[0].key).Some? ==>
           DroppedHold(dropped, children[0].value, Lookup(members, children[0].key).value))
        && DroppedHoldIn(dropped, children[1..], members))
  }

  // ---- Types ----

  function Name(kind: GeminiType): string {
    match kind
    case GString => "string"
    case GNumber => "number"
    case GInteger => "integer"
    case GBoolean => "boolean"
    case GArray => "array"
    case GObject => "object"
  }

  lemma KindIsType(kind: GeminiType, v: Json)
    ensures KindAccepts(kind, v) <==> HasType(Name(kind), v)
  {}

  lemma AsGeminiTypeIs(raw: Json)
    ensures AsGeminiType(raw).Ok? ==> raw == JString(Name(AsGeminiType(raw).value))
  {}

  lemma {:induction false} WithoutNullIs(types: seq<Json>)
    ensures forall t :: t in WithoutNull(types) <==> t in types && t != JString("null")
  {
    if types != [] { WithoutNullIs(types[1..]); }
  }

  /** A converted type accepts what the type keyword accepts, null by way of `nullable`. */
  lemma TypePreserved(fields: seq<Field>, v: Json)
    requires TypeOf(fields).Ok? && Typed(fields)
    ensures TypeAccepts(fields, v) <==>
      if v.JNull? then IsNullable(fields) else KindAccepts(TypeOf(fields).value, v)
  {
    var raw := Lookup(fields, "type").value;
    var kind := TypeOf(fields).value;
    KindIsType(kind, v);
    if raw.JArray? {
      var types := raw.elements;
      WithoutNullIs(types);
      var only := WithoutNull(types);
      AsGeminiTypeIs(only[0]);
      assert only[0] in types;
      forall t | t in types ensures t == only[0] || t == JString("null") {
        if t != JString("null") { assert t in only; }
      }
      if TypeAccepts(fields, v) {
        var i :| 0 <= i < |types| && types[i].JString? && HasType(types[i].text, v);
        assert types[i] in types;
      }
      var k :| 0 <= k < |types| && types[k] == only[0];
      if v.JNull? && IsNullable(fields) {
        var j :| 0 <= j < |types| && types[j] == JString("null");
        assert types[j].JString? && HasType(types[j].text, v);
      }
      if !v.JNull? && KindAccepts(kind, v) {
        assert types[k].JString? && HasType(types[k].text, v);
      }
    } else {
      AsGeminiTypeIs(raw);
    }
  }

  lemma {:induction false} TextsAre(values: seq<Json>, text: string)
    ensures text in Texts(values) <==> JString(text) in values
  {
    if values != [] { TextsAre(values[1..], text); }
  }

  /** Enumerations survive, except that null slips past one on a nullable node. */
  lemma EnumPreserved(fields: seq<Field>, kind: GeminiType, v: Json)
    requires EnumOf(fields, kind).Ok? && !v.JNull?
    ensures var e := EnumOf(fields, kind).value;
      EnumAccepts(fields, v) <==> (e.Some? ==> v.JString? && v.text in e.value)
  {
    var found := Lookup(fields, "enum");
    if found.Some? && found.value.JArray? && v.JString? {
      TextsAre(found.value.elements, v.text);
    }
  }

  // ---- The conversion preserves meaning ----

  lemma ConvertParts(node: Json)
    requires Convert(node).Ok?
    ensures node.JObject? && FirstStructural(node.fields).None? && TypeOf(node.fields).Ok?
    ensures var g := Convert(node).value; var kind := TypeOf(node.fields).value;
      && g.kind == kind && g.nullable == IsNullable(node.fields)
      && EnumOf(node.fields, kind) == Ok(g.enumeration)
      && (kind.GObject? ==> g.required == RequiredOf(node.fields) && g.items.None?)
      && (kind.GObject? && PropertiesOf(node.fields).Some? ==>
            ConvertFields(PropertiesOf(node.fields).value).Ok?
            && g.properties == Present(ConvertFields(PropertiesOf(node.fields).value).value))
      && (kind.GObject? && PropertiesOf(node.fields).None? ==> g.properties.Absent?)
      && (kind.GArray? ==>
            (Lookup(node.fields, "items").Some? && Convert(Lookup(node.fields, "items").value).Ok?
             && g.items == Some(Convert(Lookup(node.fields, "items").value).value)))
  {}

  /** Every value the source accepts, the converted schema accepts. */
  lemma {:induction false} Forward(dropped: (Json, Json) -> bool, node: Json, v: Json)
    requires Convert(node).Ok? && Everywhere(Typed, node) && Accepts(dropped, node, v)
    ensures GeminiAccepts(Convert(node).value, v)
    decreases node, 1
  {
    ConvertParts(node);
    TypePreserved(node.fields, v);
    var g := Convert(node).value;
    if !v.JNull? {
      EnumPreserved(node.fields, g.kind, v);
      if v.JObject? && PropertiesOf(node.fields).Some? {
        ForwardFields(dropped, PropertiesOf(node.fields).value, v.fields);
      }
      if v.JArray? {
        forall i | 0 <= i < |v.elements| ensures GeminiAccepts(g.items.value, v.elements[i]) {
          Forward(dropped, Lookup(node.fields, "items").value, v.elements[i]);
        }
      }
    }
  }

  lemma {:induction false} ForwardFields(dropped: (Json, Json) -> bool, children: seq<Field>, members: seq<Field>)
    requires ConvertFields(children).Ok? && EverywhereIn(Typed, children) && AcceptsFields(dropped, children, members)
    ensures GeminiAcceptsFields(ConvertFields(children).value, members)
    decreases children, 0
  {
    if children != [] {
      if Lookup(members, children[0].key).Some? {
        Forward(dropped, children[0].value, Lookup(members, children[0].key).value);
      }
      ForwardFields(dropped, children[1..], members);
      var properties := ConvertFields(children).value;
      assert properties[1..] == ConvertFields(children[1..]).value;
    }
  }

  /** A value the converted schema accepts and the dropped constraints allow, the source
      accepts; a typeless node is no obstacle in this direction. */
  lemma {:induction false} Backward(dropped: (Json, Json) -> bool, node: Json, v: Json)
    requires Convert(node).Ok? && Everywhere(NoNullableEnum, node)
    requires GeminiAccepts(Convert(node).value, v) && DroppedHold(dropped, node, v)
    ensures Accepts(dropped, node, v)
    decreases node, 1
  {
    ConvertParts(node);
    var g := Convert(node).value;
    if Typed(node.fields) { TypePreserved(node.fields, v); }
    if !v.JNull? {
      EnumPreserved(node.fields, g.kind, v);
      if v.JObject? && PropertiesOf(node.fields).Some? {
        BackwardFields(dropped, PropertiesOf(node.fields).value, v.fields);
      }
      if v.JArray? {
        forall i | 0 <= i < |v.elements| ensures Accepts(dropped, Lookup(node.fields, "items").value, v.elements[i]) {
          Backward(dropped, Lookup(node.fields, "items").value, v.elements[i]);
        }
      }
    }
  }

  lemma {:induction false} BackwardFields(dropped: (Json, Json) -> bool, children: seq<Field>, members: seq<Field>)
    requires ConvertFields(children).Ok? && EverywhereIn(NoNullableEnum, children)
    requires GeminiAcceptsFields(ConvertFields(children).value, members) && DroppedHoldIn(dropped, children, members)
    ensures AcceptsFields(dropped, children, members)
    decreases children, 0
  {
    if children != [] {
      var properties := ConvertFields(children).value;
      assert properties[1..] == ConvertFields(children[1..]).value;
      if Lookup(members, children[0].key).Some? {
        Backward(dropped, children[0].value, Lookup(members, children[0].key).value);
      }
      BackwardFields(dropped, children[1..], members);
    }
  }

  lemma {:induction false} AcceptedHoldsDropped(dropped: (Json, Json) -> bool, node: Json, v: Json)
    requires Accepts(dropped, node, v)
    ensures DroppedHold(dropped, node, v)
    decreases node, 1
  {
    if v.JObject? && PropertiesOf(node.fields).Some? {
      AcceptedHoldsDroppedIn(dropped, PropertiesOf(node.fields).value, v.fields);
    }
    if v.JArray? && Lookup(node.fields, "items").Some? {
      forall i | 0 <= i < |v.elements|
        ensures DroppedHold(dropped, Lookup(node.fields, "items").value, v.elements[i])
      {
        AcceptedHoldsDropped(dropped, Lookup(node.fields, "items").value, v.elements[i]);
      }
    }
  }

  lemma {:induction false} AcceptedHoldsDroppedIn(dropped: (Json, Json) -> bool, children: seq<Field>, members: seq<Field>)
    requires AcceptsFields(dropped, children, members)
    ensures DroppedHoldIn(dropped, children, members)
    decreases children, 0
  {
    if children != [] {
      if Lookup(members, children[0].key).Some? {
        AcceptedHoldsDropped(dropped, children[0].value, Lookup(members, children[0].key).value);
      }
      AcceptedHoldsDroppedIn(dropped, children[1..], members);
    }
  }

  /** The conversion loses exactly the dropped constraints and nothing else, on every schema
      it converts that names a type at every node and has no enumeration on a nullable one. */
  lemma MeaningPreserved(dropped: (Json, Json) -> bool, root: Json, v: Json)
    requires ToGeminiSchema(root).Ok? && Everywhere(Typed, root) && Everywhere(NoNullableEnum, root)
    ensures Accepts(dropped, root, v) <==>
      GeminiAccepts(ToGeminiSchema(root).value, v) && DroppedHold(dropped, root, v)
  {
    if Accepts(dropped, root, v) {
      Forward(dropped, root, v);
      AcceptedHoldsDropped(dropped, root, v);
    }
    if GeminiAccepts(Convert(root).value, v) && DroppedHold(dropped, root, v) {
      Backward(dropped, root, v);
    }
  }

  // ---- Both conditions are needed ----

  /** On any convertible nullable node with an enumeration, null passes the declaration and
      not the schema. */
  lemma NullableEnumLoosens(dropped: (Json, Json) -> bool, node: Json)
    requires Convert(node).Ok? && !NoNullableEnum(node.fields)
    ensures GeminiAccepts(Convert(node).value, JNull) && !Accepts(dropped, node, JNull)
  {
    ConvertParts(node);
  }

  /** Any convertible typeless node is narrowed to strings: a boolean passes the schema,
      unless an enumeration or a dropped keyword forbids it, and never the declaration. */
  lemma TypelessNarrows(dropped: (Json, Json) -> bool, node: Json)
    requires Convert(node).Ok? && !Typed(node.fields)
    ensures !GeminiAccepts(Convert(node).value, JBool(true))
    ensures Lookup(node.fields, "enum").None? && dropped(node, JBool(true)) ==> Accepts(dropped, node, JBool(true))
  {
    ConvertParts(node);
  }

  // ---- Nothing structural is lost silently ----

  predicate NoStructural(fields: seq<Field>) {
    forall f | f in fields :: f.key !in STRUCTURAL_KEYS
  }

  lemma {:induction false} FirstStructuralIs(fields: seq<Field>)
    ensures FirstStructural(fields).None? <==> NoStructural(fields)
  {
    if fields != [] {
      FirstStructuralIs(fields[1..]);
      assert forall f :: f in fields <==> f == fields[0] || f in fields[1..];
    }
  }

  /** The converted tree has the shape of the source: the same fields and the same required
      list at every object, and nowhere a structural keyword. */
  ghost predicate SameShape(node: Json, g: Schema)
    decreases node, 1
  {
    node.JObject? && NoStructural(node.fields)
    && (forall text | g.description == Some(text) :: text != "" && Lookup(node.fields, "description") == Some(JString(text)))
    && (forall text | Lookup(node.fields, "description") == Some(JString(text)) && text != "" :: g.description == Some(text))
    && (g.kind.GObject? ==>
          (g.required == RequiredOf(node.fields)
           && (g.properties.Present? <==> PropertiesOf(node.fields).Some?)
           && (g.properties.Present? ==> SameFields(PropertiesOf(node.fields).value, g.properties.list))))
    && (g.kind.GArray? ==>
          (g.items.Some? && Lookup(node.fields, "items").Some?
           && SameShape(Lookup(node.fields, "items").value, g.items.value)))
  }

  ghost predicate SameFields(children: seq<Field>, properties: seq<Property>)
    decreases children, 0
  {
    |children| == |properties|
    && (children != [] ==> children[0].key == properties[0].key && SameShape(children[0].value, properties[0].schema)
                           && SameFields(children[1..], properties[1..]))
  }

  lemma {:induction false} ShapeKept(node: Json)
    requires Convert(node).Ok?
    ensures SameShape(node, Convert(node).value)
    decreases node, 1
  {
    ConvertParts(node);
    FirstStructuralIs(node.fields);
    var g := Convert(node).value;
    if g.kind.GObject? && PropertiesOf(node.fields).Some? { FieldsKept(PropertiesOf(node.fields).value); }
    if g.kind.GArray? { ShapeKept(Lookup(node.fields, "items").value); }
  }

  lemma {:induction false} FieldsKept(children: seq<Field>)
    requires ConvertFields(children).Ok?
    ensures SameFields(children, ConvertFields(children).value)
    decreases children, 0
  {
    if children != [] {
      ShapeKept(children[0].value);
      FieldsKept(children[1..]);
      assert ConvertFields(children).value[1..] == ConvertFields(children[1..]).value;
    }
  }

  // ---- Which schemas are converted ----

  const TYPE_NAMES := ["string", "number", "integer", "boolean", "array", "object"]

  /** The node names one type Gemini has: none at all for a string, a single name, or a list with
      that name once and nothing else but "null". */
  ghost predicate NamesType(fields: seq<Field>, name: string) {
    && name in TYPE_NAMES
    && match Lookup(fields, "type")
       case None => name == "string"
       case Some(JString(only)) => only == name
       case Some(JArray(types)) => OnlyType(types, JString(name))
       case _ => false
  }

  ghost predicate OnlyType(types: seq<Json>, only: Json) {
    only != JString("null")
    && exists k :: 0 <= k < |types| && types[k] == only
         && forall j | 0 <= j < |types| && j != k :: types[j] == JString("null")
  }

  /** An enumeration stands on a string and holds strings. */
  ghost predicate EnumOfStrings(fields: seq<Field>) {
    forall values: seq<Json> | Lookup(fields, "enum") == Some(JArray(values)) ::
      NamesType(fields, "string") && forall v | v in values :: v.JString?
  }

  /** Every node reached is an object without structural keyword, names one type, has an
      enumeration only of strings, and items when it is an array. */
  ghost predicate Expressible(node: Json)
    decreases node, 1
  {
    node.JObject? && NoStructural(node.fields) && EnumOfStrings(node.fields)
    && (exists name :: NamesType(node.fields, name))
    && (NamesType(node.fields, "object") && PropertiesOf(node.fields).Some? ==>
          ExpressibleFields(PropertiesOf(node.fields).value))
    && (NamesType(node.fields, "array") ==>
          Lookup(node.fields, "items").Some? && Expressible(Lookup(node.fields, "items").value))
  }

  ghost predicate ExpressibleFields(children: seq<Field>)
    decreases children, 0
  {
    children == [] || (Expressible(children[0].value) && ExpressibleFields(children[1..]))
  }

  lemma {:induction false} NoneLeft(types: seq<Json>)
    ensures WithoutNull(types) == [] <==> forall j | 0 <= j < |types| :: types[j] == JString("null")
  {
    if types != [] {
      NoneLeft(types[1..]);
      assert forall j | 1 <= j < |types| :: types[j] == types[1..][j - 1];
      if forall j | 0 <= j < |types| :: types[j] == JString("null") {
        assert forall j | 0 <= j < |types[1..]| :: types[1..][j] == types[j + 1];
      }
    }
  }

  lemma {:induction false} OneLeft(types: seq<Json>, only: Json)
    ensures WithoutNull(types) == [only] <==> OnlyType(types, only)
  {
    if types != [] {
      var rest := types[1..];
      OneLeft(rest, only);
      NoneLeft(rest);
      OnlyTypeStep(types, only);
    }
  }

  lemma OnlyTypeStep(types: seq<Json>, only: Json)
    requires types != []
    ensures OnlyType(types, only) <==>
      if types[0] == JString("null") then OnlyType(types[1..], only)
      else types[0] == only && forall j | 0 <= j < |types[1..]| :: types[1..][j] == JString("null")
  {
    var rest := types[1..];
    assert forall j | 0 <= j < |rest| :: rest[j] == types[j + 1];
    if OnlyType(types, only) {
      var k :| 0 <= k < |types| && types[k] == only && forall j | 0 <= j < |types| && j != k :: types[j] == JString("null");
      if k > 0 { assert rest[k - 1] == only; }
    }
    if types[0] == JString("null") && OnlyType(rest, only) {
      var k :| 0 <= k < |rest| && rest[k] == only && forall j | 0 <= j < |rest| && j != k :: rest[j] == JString("null");
      assert types[k + 1] == only;
      forall j | 0 <= j < |types| && j != k + 1 ensures types[j] == JString("null") {
        if j > 0 { assert types[j] == rest[j - 1]; }
      }
    }
    if types[0] == only && only != JString("null") && forall j | 0 <= j < |rest| :: rest[j] == JString("null") {
      forall j | 0 <= j < |types| && j != 0 ensures types[j] == JString("null") { assert types[j] == rest[j - 1]; }
    }
  }

  lemma NameIsKnown(raw: Json, kind: GeminiType)
    ensures AsGeminiType(raw) == Ok(kind) <==> raw == JString(Name(kind))
    ensures Name(kind) in TYPE_NAMES && Name(kind) != "null"
  {
    assert Name(kind) == TYPE_NAMES[match kind case GString => 0 case GNumber => 1 case GInteger => 2
                                    case GBoolean => 3 case GArray => 4 case GObject => 5];
  }

  /** The converter reads off exactly the one type the node names. */
  lemma {:induction false} TypeIs(fields: seq<Field>, kind: GeminiType)
    ensures TypeOf(fields) == Ok(kind) <==> NamesType(fields, Name(kind))
  {
    var raw := Lookup(fields, "type");
    if raw.Some? {
      NameIsKnown(raw.value, kind);
      if raw.value.JArray? {
        OneLeft(raw.value.elements, JString(Name(kind)));
        var left := WithoutNull(raw.value.elements);
        if |left| == 1 {
          NameIsKnown(left[0], kind);
          assert left == [left[0]];
        }
      }
    } else {
      NameIsKnown(JNull, kind);
    }
  }

  lemma KindOf(name: string) returns (kind: GeminiType)
    requires name in TYPE_NAMES
    ensures Name(kind) == name
  {
    kind := if name == "string" then GString else if name == "number" then GNumber
            else if name == "integer" then GInteger else if name == "boolean" then GBoolean
            else if name == "array" then GArray else GObject;
  }

  lemma TypeExists(fields: seq<Field>)
    ensures TypeOf(fields).Ok? <==> exists name :: NamesType(fields, name)
  {
    if TypeOf(fields).Ok? { TypeIs(fields, TypeOf(fields).value); }
    if name :| NamesType(fields, name) {
      var kind := KindOf(name);
      TypeIs(fields, kind);
    }
  }

  lemma EnumIs(fields: seq<Field>, kind: GeminiType)
    requires TypeOf(fields) == Ok(kind)
    ensures EnumOf(fields, kind).Ok? <==> EnumOfStrings(fields)
  {
    TypeIs(fields, GString);
    TypeIs(fields, kind);
  }

  /** A node without structural keywords whose type and enumeration are in order. */
  predicate Ready(node: Json) {
    node.JObject? && FirstStructural(node.fields).None? && TypeOf(node.fields).Ok?
    && EnumOf(node.fields, TypeOf(node.fields).value).Ok?
  }

  lemma ConvertsWhenReady(node: Json)
    ensures Convert(node).Ok? <==>
      Ready(node)
      && (TypeOf(node.fields).value.GObject? && PropertiesOf(node.fields).Some? ==>
            ConvertFields(PropertiesOf(node.fields).value).Ok?)
      && (TypeOf(node.fields).value.GArray? ==>
            Lookup(node.fields, "items").Some? && Convert(Lookup(node.fields, "items").value).Ok?)
  {}

  lemma ReadyIs(node: Json)
    ensures Ready(node) <==>
      node.JObject? && NoStructural(node.fields) && EnumOfStrings(node.fields) && exists name :: NamesType(node.fields, name)
    ensures Ready(node) ==>
      (TypeOf(node.fields).value.GObject? <==> NamesType(node.fields, "object"))
      && (TypeOf(node.fields).value.GArray? <==> NamesType(node.fields, "array"))
  {
    if node.JObject? {
      FirstStructuralIs(node.fields);
      TypeExists(node.fields);
      TypeIs(node.fields, GObject);
      TypeIs(node.fields, GArray);
      if TypeOf(node.fields).Ok? { EnumIs(node.fields, TypeOf(node.fields).value); }
    }
  }

  /** A node is converted if and only if it and every node below it that matters can be expressed. */
  lemma {:induction false} ConvertsExactlyWhen(node: Json)
    ensures Convert(node).Ok? <==> Expressible(node)
    decreases node, 1
  {
    ConvertsWhenReady(node);
    ReadyIs(node);
    if Ready(node) {
      if PropertiesOf(node.fields).Some? { FieldsConvertExactlyWhen(PropertiesOf(node.fields).value); }
      if Lookup(node.fields, "items").Some? { ConvertsExactlyWhen(Lookup(node.fields, "items").value); }
    }
  }

  lemma {:induction false} FieldsConvertExactlyWhen(children: seq<Field>)
    ensures ConvertFields(children).Ok? <==> ExpressibleFields(children)
    decreases children, 0
  {
    if children != [] {
      ConvertsExactlyWhen(children[0].value);
      FieldsConvertExactlyWhen(children[1..]);
    }
  }

  lemma KindKept(node: Json)
    requires Convert(node).Ok?
    ensures Convert(node).value.kind == TypeOf(node.fields).value
  {}

  /** A tool's parameters are converted if and only if they are an expressible object schema. */
  lemma RootConvertsExactlyWhen(root: Json)
    ensures ToGeminiSchema(root).Ok? <==> Expressible(root) && NamesType(root.fields, "object")
  {
    ConvertsExactlyWhen(root);
    ConvertsWhenReady(root);
    ReadyIs(root);
    if Convert(root).Ok? { KindKept(root); }
  }

  // ---- The procedure ----

  /** `convert`, filling its result key by key and refusing on the way. */
  method ConvertNode(node: Json) returns (r: Result<Schema>)
    ensures r == Convert(node)
    decreases node
  {
    if !node.JObject? { return Err(NotASchemaObject); }
    var fields := node.fields;
    var i := 0;
    while i < |fields|
      invariant i <= |fields|
      invariant FirstStructural(fields) == FirstStructural(fields[i..])
    {
      if fields[i].key in STRUCTURAL_KEYS { return Err(StructuralKeyword(fields[i].key)); }
      assert fields[i..][1..] == fields[i + 1..];
      i := i + 1;
    }
    var kind := TypeOf(fields);
    if kind.Err? { return Err(kind.error); }
    var enumeration := EnumOf(fields, kind.value);
    if enumeration.Err? { return Err(enumeration.error); }
    var out := Schema(kind.value, DescriptionOf(fields), IsNullable(fields), enumeration.value, Absent, None, None);
    if kind.value.GObject? {
      var children := PropertiesOf(fields);
      if children.Some? {
        var properties := ConvertEntries(children.value);
        if properties.Err? { return Err(properties.error); }
        out := out.(properties := Present(properties.value));
      }
      out := out.(required := RequiredOf(fields));
    }
    if kind.value.GArray? {
      var items := Lookup(fields, "items");
      if items.None? { return Err(ArrayWithoutItems); }
      var converted := ConvertNode(items.value);
      if converted.Err? { return Err(converted.error); }
      out := out.(items := Some(converted.value));
    }
    return Ok(out);
  }

  method ConvertEntries(children: seq<Field>) returns (r: Result<seq<Property>>)
    ensures r == ConvertFields(children)
    decreases children
  {
    var converted: seq<Property> := [];
    assert children[0..] == children;
    assert forall all: seq<Property> :: converted + all == all;
    for i := 0 to |children|
      invariant ConvertFields(children) ==
        if ConvertFields(children[i..]).Ok? then Ok(converted + ConvertFields(children[i..]).value)
        else ConvertFields(children[i..])
    {
      assert children[i..][1..] == children[i + 1..];
      var child := ConvertNode(children[i].value);
      if child.Err? { return Err(child.error); }
      assert forall rest: seq<Property> ::
        converted + ([Property(children[i].key, child.value)] + rest) == (converted + [Property(children[i].key, child.value)]) + rest;
      converted := converted + [Property(children[i].key, child.value)];
    }
    assert children[|children|..] == [];
    assert converted + [] == converted;
    return Ok(converted);
  }

  /** `toGeminiSchema`. */
  method ConvertRoot(root: Json) returns (r: Result<Schema>)
    ensures r == ToGeminiSchema(root)
    ensures r.Ok? <==> Expressible(root) && NamesType(root.fields, "object")
  {
    RootConvertsExactlyWhen(root);
    r := ConvertNode(root);
    if r.Ok? && !r.value.kind.GObject? { r := Err(RootNotAnObject); }
  }
}
