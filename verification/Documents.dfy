/** The volume metadata record and the text that stores it on either backend. */
module Documents {
  import opened Wrappers

  /** `context` is the volume context; a Go nil map is None. */
  datatype Metadata = Metadata(volumeID: string, targetPath: string, context: Option<map<string, string>>)

  /** The contents of a stored file: the JSON text of a record, or any other bytes. */
  datatype Text = Json(meta: Metadata) | Bytes(data: string)

  /** The entries of a context, which is all that semantic equality looks at. */
  function Entries(context: Option<map<string, string>>): map<string, string> {
    match context
    case None => map[]
    case Some(m) => m
  }

  /** `omitempty` drops an empty context, so it comes back as nil. */
  function Normalise(meta: Metadata): Metadata {
    meta.(context := if Entries(meta.context) == map[] then None else meta.context)
  }

  function Encode(meta: Metadata): Text {
    Json(Normalise(meta))
  }

  function Decode(text: Text): Option<Metadata> {
    match text
    case Json(meta) => Some(meta)
    case Bytes(_) => None
  }

  /** Semantic equality: nil and empty contexts are equal. */
  predicate SameContext(a: Option<map<string, string>>, b: Option<map<string, string>>) {
    Entries(a) == Entries(b)
  }

  /** The context has this entry; none has no entries. */
  predicate Has(context: Option<map<string, string>>, key: string, value: string) {
    context.Some? && key in context.value && context.value[key] == value
  }

  ghost predicate SameEntries(a: Option<map<string, string>>, b: Option<map<string, string>>) {
    forall key, value :: Has(a, key, value) <==> Has(b, key, value)
  }

  /** So two contexts are equal if and only if they have the same entries. */
  lemma SameContextIs(a: Option<map<string, string>>, b: Option<map<string, string>>)
    ensures SameContext(a, b) <==> SameEntries(a, b)
  {
    var x, y := Entries(a), Entries(b);
    if SameEntries(a, b) {
      forall key ensures key in x <==> key in y {
        assert key in x ==> Has(a, key, x[key]);
        assert key in y ==> Has(b, key, y[key]);
      }
      forall key | key in x ensures x[key] == y[key] {
        assert Has(a, key, x[key]);
      }
    }
  }
}
