/**
 * The upload branch of the `index()` handler (C.py:153-192): the duplicate
 * check, the insertion at the head of the module-level `entries` list, and
 * the mapping of the outcome to the message the page shows.
 */
module Index {
  import opened Wrappers
  import opened Invoice

  /** What one POST did. `Raised` is an exception caught by the handler. */
  datatype Outcome =
    | NoFile                  // the request has no `file` part
    | Accepted(entry: Entry)  // the entry was inserted at the head
    | Duplicate               // the invoice number is already in the ledger
    | Raised(fault: Fault)

  /** The outcome of one POST together with the ledger it leaves behind. */
  datatype Step = Step(outcome: Outcome, ledger: seq<Entry>)

  /**
   * `any(entry["invoice"] == invoice.text for entry in entries)`. The
   * generator reads `invoice.text` only when it reaches a first entry, so a
   * missing `nNF` raises `AttributeError` exactly when the ledger is not empty.
   */
  function Processed(entries: seq<Entry>, invoice: Option<Element>): (r: Result<bool, Fault>)
    ensures r.Failure? <==> entries != [] && invoice.None?
    ensures r.Failure? ==> r.error == AttributeError
    ensures r == Success(true) <==>
      invoice.Some? && exists i :: 0 <= i < |entries| && entries[i].invoice == invoice.value.text
  {
    if entries == [] then Success(false)
    else
      match invoice
      case None => Failure(AttributeError)
      case Some(e) =>
        if entries[0].invoice == e.text then Success(true) else Processed(entries[1..], invoice)
  }

  /** No two entries share an invoice number. */
  ghost predicate DistinctInvoices(entries: seq<Entry>)
  {
    forall i, j :: 0 <= i < j < |entries| ==> entries[i].invoice != entries[j].invoice
  }

  /**
   * One POST against the ledger `entries`, with `now` the time of day the
   * clock would give. A failure at any point leaves the ledger as it was; only
   * an accepted entry is prepended, and only when its invoice number is new.
   */
  function Handle(entries: seq<Entry>, file: Option<FilePart>, now: string, format: ValueFormatter): (r: Step)
    ensures !r.outcome.Accepted? ==> r.ledger == entries
    ensures r.outcome.Accepted? ==> r.ledger == [r.outcome.entry] + entries
    ensures r.outcome.Accepted? ==>
      forall i :: 0 <= i < |entries| ==> entries[i].invoice != r.outcome.entry.invoice
    ensures r.outcome.NoFile? <==> file.None?
    ensures r.outcome.Accepted? <==>
      file.Some? && file.value.WellFormed? &&
      Processed(entries, file.value.doc.invoice) == Success(false) &&
      BuildEntry(file.value.doc, now, format).Success?
    ensures r.outcome.Accepted? ==> r.outcome.entry == BuildEntry(file.value.doc, now, format).value
  {
    match file
    case None => Step(NoFile, entries)
    case Some(Malformed) => Step(Raised(ParseError), entries)
    case Some(WellFormed(doc)) =>
      match Processed(entries, doc.invoice)
      case Failure(f) => Step(Raised(f), entries)
      case Success(true) => Step(Duplicate, entries)
      case Success(false) =>
        match BuildEntry(doc, now, format)
        case Failure(f) => Step(Raised(f), entries)
        case Success(e) => Step(Accepted(e), [e] + entries)
  }

  /** A step never introduces a second entry for an invoice number. */
  lemma HandleKeepsDistinct(entries: seq<Entry>, file: Option<FilePart>, now: string, format: ValueFormatter)
    requires DistinctInvoices(entries)
    ensures DistinctInvoices(Handle(entries, file, now, format).ledger)
  {
  }

  /** The process-wide ledger: the module-level list `entries` (C.py:8). */
  class Ledger {
    var entries: seq<Entry>

    ghost predicate Valid()
      reads this
    {
      DistinctInvoices(entries)
    }

    constructor ()
      ensures Valid() && entries == []
    {
      entries := [];
    }

    /** Handles one POST: the body of `if request.method == "POST"`. */
    method Upload(file: Option<FilePart>, now: string, format: ValueFormatter) returns (outcome: Outcome)
      requires Valid()
      modifies this
      ensures Valid()
      ensures Step(outcome, entries) == Handle(old(entries), file, now, format)
    {
      ghost var before := entries;
      HandleKeepsDistinct(entries, file, now, format);
      match file {
        case None =>
          outcome := NoFile;
        case Some(Malformed) =>
          outcome := Raised(ParseError);
        case Some(WellFormed(doc)) =>
          var seen := Processed(entries, doc.invoice);
          if seen.Failure? {
            outcome := Raised(seen.error);
          } else if seen.value {
            outcome := Duplicate;
          } else {
            var built := BuildEntry(doc, now, format);
            if built.Failure? {
              outcome := Raised(built.error);
            } else {
              entries := [built.value] + entries;
              outcome := Accepted(built.value);
            }
          }
      }
    }
  }

  const DuplicateMessage := "Este arquivo já foi processado."
  const ParseErrorMessage := "Erro ao analisar o arquivo XML. " + "Verifique a formatação."
  const InvalidFileMessage :=
    "Arquivo XML inválido. " + "Verifique se ele contém os campos necessários (xNome, nNF, vNF)."
  const OtherErrorPrefix := "Ocorreu um erro: "

  /** The `except` clause that catches each fault and the message it sets. */
  function FaultMessage(f: Fault): (m: string)
    ensures |m| > 0
    ensures f.OtherException? <==> |m| >= |OtherErrorPrefix| && m[..|OtherErrorPrefix|] == OtherErrorPrefix
    ensures f.OtherException? ==> m[|OtherErrorPrefix|..] == f.detail
  {
    match f
    case ParseError =>
      assert ParseErrorMessage[0] != OtherErrorPrefix[0];
      ParseErrorMessage
    case AttributeError =>
      assert InvalidFileMessage[0] != OtherErrorPrefix[0];
      InvalidFileMessage
    case OtherException(detail) => OtherErrorPrefix + detail
  }

  /** `error_message` once the `try` statement is over. */
  function Message(o: Outcome): (m: Option<string>)
    ensures m.None? <==> o.NoFile? || o.Accepted?
    ensures m.Some? ==> |m.value| > 0
    ensures o.Raised? ==> m == Some(FaultMessage(o.fault))
  {
    match o
    case NoFile => None
    case Accepted(_) => None
    case Duplicate => Some(DuplicateMessage)
    case Raised(f) => Some(FaultMessage(f))
  }

  /** The response: the page with the message, or a redirect to the page. */
  datatype Reply = Redirect | ShowError(message: string)

  /** `if error_message:` render with the message, otherwise redirect. */
  function Respond(o: Outcome): (r: Reply)
    ensures r.Redirect? <==> o.NoFile? || o.Accepted?
    ensures r.ShowError? ==> Message(o) == Some(r.message)
  {
    match Message(o)
    case Some(m) => if |m| > 0 then ShowError(m) else Redirect
    case None => Redirect
  }
}
