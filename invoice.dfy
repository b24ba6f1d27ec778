/**
 * The uploaded NF-e document as the handler sees it after parsing, and the
 * ledger entry built from it (C.py:157-176).
 *
 * The XML library is not modelled: a well-formed document is represented by
 * the results of its four `root.find(".//ns:...")` lookups in the namespace
 * `http://www.portalfiscal.inf.br/nfe`, each of which is either absent or an
 * element whose `.text` is a string or, for an element with no text, `None`.
 */
module Invoice {
  import opened Wrappers

  /** Python's `str | None`, the type of an element's `.text`. */
  type Text = Option<string>

  /** An element found by `root.find`; only its text is ever read. */
  datatype Element = Element(text: Text)

  /** The four lookups `xNome`, `nNF`, `vNF` and `dhSaiEnt` of one document. */
  datatype Document = Document(
    supplier: Option<Element>,
    invoice: Option<Element>,
    value: Option<Element>,
    date: Option<Element>)

  /** The uploaded `file` part as `ET.parse` sees it. */
  datatype FilePart = Malformed | WellFormed(doc: Document)

  /** One row of the ledger: the dictionary built at C.py:170-176. */
  datatype Entry = Entry(
    supplier: Text,
    invoice: Text,
    value: string,
    time: string,
    date: Text)

  /** The exceptions the handler's `try` block can raise and catch. */
  datatype Fault =
    | ParseError                        // ET.ParseError: not well-formed XML
    | AttributeError                    // `.text` read on a missing element
    | OtherException(detail: string)    // any other exception, with str(e)

  /**
   * `f"{float(s):.2f}"` for a string `s`: the formatted number, or the
   * message of the `ValueError` that `float` raises. Floating point is not
   * modelled, so the handler receives this conversion as a parameter.
   */
  type ValueFormatter = string -> Result<string, string>

  /** The message of the `TypeError` that `float(None)` raises (CPython 3.10 and later). */
  const NoneToFloatMessage := "float() argument must be a string or a real number, not 'NoneType'"

  const DefaultSupplier := "Desconhecido"
  const DefaultInvoice := "N/A"
  const DefaultValue := "0.00"
  const DefaultDate := "Data não encontrada"

  /** `field.text if field is not None else default`. */
  function TextOr(field: Option<Element>, default: string): Text
  {
    match field
    case Some(e) => e.text
    case None => Some(default)
  }

  /** `f"{float(value.text):.2f}"`: an element without text cannot be converted. */
  function ConvertValue(t: Text, format: ValueFormatter): Result<string, string>
  {
    match t
    case None => Failure(NoneToFloatMessage)
    case Some(s) => format(s)
  }

  /**
   * Builds the new ledger entry, stamping it with the time-of-day string
   * `now`. Only the value conversion can raise; every other field falls back
   * to its default when its element is missing.
   */
  function BuildEntry(doc: Document, now: string, format: ValueFormatter): (r: Result<Entry, Fault>)
    ensures r.Failure? <==>
      doc.value.Some? && (doc.value.value.text.None? || format(doc.value.value.text.value).Failure?)
    ensures doc.value.Some? && doc.value.value.text.None? ==>
      r == Failure(OtherException(NoneToFloatMessage))
    ensures doc.value.Some? && doc.value.value.text.Some? && format(doc.value.value.text.value).Failure? ==>
      r == Failure(OtherException(format(doc.value.value.text.value).error))
    ensures r.Success? ==> r.value.time == now
    ensures r.Success? && doc.supplier.None? ==> r.value.supplier == Some(DefaultSupplier)
    ensures r.Success? && doc.invoice.None? ==> r.value.invoice == Some(DefaultInvoice)
    ensures r.Success? && doc.value.None? ==> r.value.value == DefaultValue
    ensures r.Success? && doc.date.None? ==> r.value.date == Some(DefaultDate)
    ensures r.Success? && doc.supplier.Some? ==> r.value.supplier == doc.supplier.value.text
    ensures r.Success? && doc.invoice.Some? ==> r.value.invoice == doc.invoice.value.text
    ensures r.Success? && doc.value.Some? ==>
      doc.value.value.text.Some? && r.value.value == format(doc.value.value.text.value).value
    ensures r.Success? && doc.date.Some? ==> r.value.date == doc.date.value.text
  {
    var value :=
      match doc.value
      case Some(e) => ConvertValue(e.text, format)
      case None => Success(DefaultValue);
    match value
    case Failure(message) => Failure(OtherException(message))
    case Success(v) =>
      Success(Entry(
        TextOr(doc.supplier, DefaultSupplier),
        TextOr(doc.invoice, DefaultInvoice),
        v,
        now,
        TextOr(doc.date, DefaultDate)))
  }
}
