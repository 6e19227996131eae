/**
 * `parseSchema`: classifies the value JSON5 parsing produced into a schema
 * document. Tokenising itself is outside the model; its outcome arrives as
 * `Ok(value)` or `Err(message)` with the message of the error it threw.
 * Nodes are not validated: every node of the document is a value taken
 * unchanged from the parsed input.
 */
module SchemaParser {
  import opened Wrappers
  import opened Text
  import opened JsValues

  /** The document: the top-level nodes and `meta`, `None` where the result has no `meta` key at all. */
  datatype SchemaDocument = SchemaDocument(schema: seq<JsValue>, meta: Option<JsValue>)

  const FailurePrefix: string := "Schema 解析失败："

  /** `parsed && typeof parsed === 'object' && Array.isArray(parsed.schema)` (an array never reaches this test). */
  predicate IsWrapped(parsed: JsValue) {
    parsed.Obj? && Get(parsed, "schema").Arr?
  }

  /** A node of the result is the parsed value itself or an element of the array that became the schema. */
  predicate TakenFrom(parsed: JsValue, node: JsValue) {
    node == parsed
    || (parsed.Arr? && node in parsed.items)
    || (IsWrapped(parsed) && node in Get(parsed, "schema").items)
  }

  function ParseSchema(parsed: Result<JsValue>): (r: Result<SchemaDocument>)
    ensures r.Err? <==> parsed.Err?
    ensures r.Err? ==> StartsWith(r.message, FailurePrefix) && r.message[|FailurePrefix|..] == parsed.message
    ensures r.Ok? ==> (r.value.meta.Some? <==> IsWrapped(parsed.value))
    ensures r.Ok? ==> forall k :: 0 <= k < |r.value.schema| ==> TakenFrom(parsed.value, r.value.schema[k])
  {
    match parsed
    case Err(message) => Err(FailurePrefix + message)
    case Ok(v) =>
      if v.Arr? then Ok(SchemaDocument(v.items, None))
      else if IsWrapped(v) then Ok(SchemaDocument(Get(v, "schema").items, Some(Get(v, "meta"))))
      else Ok(SchemaDocument([v], None))
  }

  /** The document as the JSON value a schema author writes: a bare array, or `{schema, meta}`. */
  function DocumentJson(doc: SchemaDocument): JsValue {
    match doc.meta
    case None => Arr(doc.schema)
    case Some(m) => Obj(map["schema" := Arr(doc.schema), "meta" := m])
  }

  /** Parsing what DocumentJson writes gives the document back: the schema and the meta are kept exactly. */
  lemma RoundTrip(doc: SchemaDocument)
    ensures ParseSchema(Ok(DocumentJson(doc))) == Ok(doc)
  {
  }

  /** A parsed array is the schema, unchanged, and there is no meta. */
  lemma ArrayIsSchema(items: seq<JsValue>)
    ensures ParseSchema(Ok(Arr(items))) == Ok(SchemaDocument(items, None))
  {
  }

  /** An object whose `schema` is an array keeps exactly that array and its `meta` (possibly `undefined`). */
  lemma WrappedObject(fields: map<string, JsValue>)
    requires "schema" in fields && fields["schema"].Arr?
    ensures ParseSchema(Ok(Obj(fields))) == Ok(SchemaDocument(fields["schema"].items, Some(Lookup(fields, "meta"))))
  {
  }

  /** Every key but `schema` and `meta` is dropped: two such objects that agree on those two parse alike. */
  lemma OtherKeysDropped(f: map<string, JsValue>, g: map<string, JsValue>)
    requires "schema" in f && f["schema"].Arr?
    requires "schema" in g && g["schema"] == f["schema"]
    requires Lookup(f, "meta") == Lookup(g, "meta")
    ensures ParseSchema(Ok(Obj(f))) == ParseSchema(Ok(Obj(g)))
  {
  }

  /** Any other value (null, a scalar, an object without an array `schema`) becomes a one-node schema. */
  lemma OtherValueIsOneNode(v: JsValue)
    requires !v.Arr? && !IsWrapped(v)
    ensures ParseSchema(Ok(v)) == Ok(SchemaDocument([v], None))
  {
  }

  /** No validation: a node with an unknown type and no props comes through as it is. */
  lemma UnknownTypePassesThrough(node: JsValue)
    requires node.Obj?
    ensures ParseSchema(Ok(Arr([node]))).value.schema == [node]
  {
  }
}
