/**
 * Properties of the upload handler: what each kind of request does to the
 * ledger and to the reply, and what holds after any sequence of uploads.
 */
module LedgerLemmas {
  import opened Wrappers
  import opened Invoice
  import opened Index

  /** A document whose invoice number is already recorded is refused and changes nothing. */
  lemma DuplicateIsRejected(entries: seq<Entry>, doc: Document, now: string, format: ValueFormatter)
    requires doc.invoice.Some?
    requires exists i :: 0 <= i < |entries| && entries[i].invoice == doc.invoice.value.text
    ensures Handle(entries, Some(WellFormed(doc)), now, format) == Step(Duplicate, entries)
    ensures Respond(Duplicate) == ShowError(DuplicateMessage)
  {
  }

  /**
   * A document with a new `nNF` text and a convertible (or absent) value is
   * accepted: the entry built from it goes to the head of the ledger.
   */
  lemma FreshInvoiceIsAccepted(entries: seq<Entry>, doc: Document, now: string, format: ValueFormatter)
    requires doc.invoice.Some?
    requires forall i :: 0 <= i < |entries| ==> entries[i].invoice != doc.invoice.value.text
    requires doc.value.Some? ==> ConvertValue(doc.value.value.text, format).Success?
    ensures var e := BuildEntry(doc, now, format);
      e.Success? &&
      Handle(entries, Some(WellFormed(doc)), now, format) == Step(Accepted(e.value), [e.value] + entries)
    ensures Respond(Handle(entries, Some(WellFormed(doc)), now, format).outcome) == Redirect
  {
  }

  /** A missing `nNF` on a non-empty ledger raises `AttributeError` before any insertion. */
  lemma MissingInvoiceIsInvalid(entries: seq<Entry>, doc: Document, now: string, format: ValueFormatter)
    requires doc.invoice.None? && entries != []
    ensures Handle(entries, Some(WellFormed(doc)), now, format) == Step(Raised(AttributeError), entries)
    ensures Respond(Raised(AttributeError)) == ShowError(InvalidFileMessage)
  {
  }

  /** The "N/A" default for a missing `nNF` is only ever stored into an empty ledger. */
  lemma DefaultInvoiceOnlyWhenEmpty(entries: seq<Entry>, doc: Document, now: string, format: ValueFormatter)
    requires Handle(entries, Some(WellFormed(doc)), now, format).outcome.Accepted?
    requires doc.invoice.None?
    ensures entries == []
    ensures Handle(entries, Some(WellFormed(doc)), now, format).ledger[0].invoice == Some(DefaultInvoice)
  {
  }

  /**
   * A value that `float` rejects, or a `vNF` element without text, is reported with the generic message and
   * nothing is inserted; a duplicate or a missing `nNF` is reported first,
   * because the check precedes the construction of the entry.
   */
  lemma BadValueIsReported(entries: seq<Entry>, doc: Document, now: string, format: ValueFormatter)
    requires doc.value.Some? && ConvertValue(doc.value.value.text, format).Failure?
    ensures Handle(entries, Some(WellFormed(doc)), now, format).ledger == entries
    ensures Processed(entries, doc.invoice) == Success(false) ==>
      var r := Handle(entries, Some(WellFormed(doc)), now, format);
      var detail := ConvertValue(doc.value.value.text, format).error;
      r.outcome == Raised(OtherException(detail)) &&
      Respond(r.outcome) == ShowError(OtherErrorPrefix + detail)
  {
  }

  /**
   * A file that is not well-formed XML is reported with the parse message; a
   * POST without a `file` part redirects without a message. Neither touches
   * the ledger.
   */
  lemma NonDocumentsChangeNothing(entries: seq<Entry>, now: string, format: ValueFormatter)
    ensures Handle(entries, Some(Malformed), now, format) == Step(Raised(ParseError), entries)
    ensures Respond(Raised(ParseError)) == ShowError(ParseErrorMessage)
    ensures Handle(entries, None, now, format) == Step(NoFile, entries)
    ensures Respond(NoFile) == Redirect
  {
  }

  /**
   * Uploading the same document again right after it was accepted changes
   * nothing: the duplicate message when it has an `nNF`, the invalid-file
   * message when it has none.
   */
  lemma SecondUploadIsRefused(
    entries: seq<Entry>, doc: Document, now: string, later: string, format: ValueFormatter)
    requires Handle(entries, Some(WellFormed(doc)), now, format).outcome.Accepted?
    ensures var first := Handle(entries, Some(WellFormed(doc)), now, format);
      var second := Handle(first.ledger, Some(WellFormed(doc)), later, format);
      second.ledger == first.ledger &&
      second.outcome == (if doc.invoice.Some? then Duplicate else Raised(AttributeError))
  {
  }

  /** Two different outcomes never show the same message, so the message tells the user what happened. */
  lemma MessageIdentifiesOutcome(o1: Outcome, o2: Outcome)
    requires Message(o1).Some? && Message(o1) == Message(o2)
    ensures o1 == o2
  {
    var m := Message(o1).value;
    assert m[0] == Message(o2).value[0] && m[1] == Message(o2).value[1];
    assert DuplicateMessage[0] == 'E' && DuplicateMessage[1] == 's';
    assert ParseErrorMessage[0] == 'E' && ParseErrorMessage[1] == 'r';
    assert InvalidFileMessage[0] == 'A';
    assert OtherErrorPrefix[0] == 'O';
    if o1.Raised? && o1.fault.OtherException? {
      assert o2.Raised? && o2.fault.OtherException?;
      assert o1.fault.detail == m[|OtherErrorPrefix|..] == o2.fault.detail;
    }
  }

  /** One request: the uploaded file part (if any) and the clock reading. */
  datatype Request = Request(file: Option<FilePart>, now: string)

  /** The outcomes of a sequence of requests, in order, and the final ledger. */
  datatype Trace = Trace(outcomes: seq<Outcome>, ledger: seq<Entry>)

  /** Handles `requests` one after another, starting from `entries`. */
  function Run(entries: seq<Entry>, requests: seq<Request>, format: ValueFormatter): (t: Trace)
    ensures |t.outcomes| == |requests|
    decreases |requests|
  {
    if requests == [] then Trace([], entries)
    else
      var n := |requests| - 1;
      var t := Run(entries, requests[..n], format);
      var s := Handle(t.ledger, requests[n].file, requests[n].now, format);
      Trace(t.outcomes + [s.outcome], s.ledger)
  }

  /** The entries accepted in `outcomes`, the most recent first. */
  function NewestFirst(outcomes: seq<Outcome>): seq<Entry>
  {
    if outcomes == [] then []
    else
      var n := |outcomes| - 1;
      (if outcomes[n].Accepted? then [outcomes[n].entry] else []) + NewestFirst(outcomes[..n])
  }

  /**
   * After any sequence of uploads the ledger is the accepted entries, newest
   * first, in front of the entries it started with; nothing is reordered or
   * dropped.
   */
  lemma {:induction false} RunIsNewestFirst(entries: seq<Entry>, requests: seq<Request>, format: ValueFormatter)
    ensures var t := Run(entries, requests, format); t.ledger == NewestFirst(t.outcomes) + entries
    decreases |requests|
  {
    if requests != [] {
      var n := |requests| - 1;
      var t := Run(entries, requests[..n], format);
      RunIsNewestFirst(entries, requests[..n], format);
      var s := Handle(t.ledger, requests[n].file, requests[n].now, format);
      StepNewestFirst(entries, t, s);
      assert Run(entries, requests, format) == Trace(t.outcomes + [s.outcome], s.ledger);
    }
  }

  /** One more step keeps the ledger equal to the accepted entries, newest first, before `entries`. */
  lemma StepNewestFirst(entries: seq<Entry>, t: Trace, s: Step)
    requires t.ledger == NewestFirst(t.outcomes) + entries
    requires s.outcome.Accepted? ==> s.ledger == [s.outcome.entry] + t.ledger
    requires !s.outcome.Accepted? ==> s.ledger == t.ledger
    ensures s.ledger == NewestFirst(t.outcomes + [s.outcome]) + entries
  {
  }

  /** After any sequence of uploads no two entries share an invoice number. */
  lemma {:induction false} RunKeepsDistinct(entries: seq<Entry>, requests: seq<Request>, format: ValueFormatter)
    requires DistinctInvoices(entries)
    ensures DistinctInvoices(Run(entries, requests, format).ledger)
    decreases |requests|
  {
    if requests != [] {
      var n := |requests| - 1;
      var t := Run(entries, requests[..n], format);
      RunKeepsDistinct(entries, requests[..n], format);
      HandleKeepsDistinct(t.ledger, requests[n].file, requests[n].now, format);
    }
  }

  /**
   * Starting from the empty ledger, no two accepted uploads carry the same
   * invoice number, however the requests are interleaved in sequence.
   */
  lemma AcceptsEachInvoiceOnce(requests: seq<Request>, format: ValueFormatter, i: nat, j: nat)
    requires var t := Run([], requests, format);
      i < j < |t.outcomes| && t.outcomes[i].Accepted? && t.outcomes[j].Accepted?
    ensures var t := Run([], requests, format);
      t.outcomes[i].entry.invoice != t.outcomes[j].entry.invoice
  {
    var t := Run([], requests, format);
    RunIsNewestFirst([], requests, format);
    RunKeepsDistinct([], requests, format);
    NewestFirstPositions(t.outcomes, i, j);
    assert t.ledger == NewestFirst(t.outcomes);
    var p, q :| 0 <= p < q < |t.ledger| &&
      t.ledger[p] == t.outcomes[j].entry && t.ledger[q] == t.outcomes[i].entry;
  }

  /** An accepted outcome appears in `NewestFirst` before every earlier accepted one. */
  lemma {:induction false} NewestFirstPositions(outcomes: seq<Outcome>, i: nat, j: nat)
    requires i < j < |outcomes| && outcomes[i].Accepted? && outcomes[j].Accepted?
    ensures exists p, q ::
      (0 <= p < q < |NewestFirst(outcomes)| &&
       NewestFirst(outcomes)[p] == outcomes[j].entry && NewestFirst(outcomes)[q] == outcomes[i].entry)
    decreases |outcomes|
  {
    var n := |outcomes| - 1;
    var rest := NewestFirst(outcomes[..n]);
    if j == n {
      var q := AcceptedPosition(outcomes[..n], i);
      assert NewestFirst(outcomes)[0] == outcomes[j].entry;
      assert NewestFirst(outcomes)[q + 1] == outcomes[i].entry;
    } else {
      NewestFirstPositions(outcomes[..n], i, j);
      var p, q :| 0 <= p < q < |rest| && rest[p] == outcomes[j].entry && rest[q] == outcomes[i].entry;
      var k := |NewestFirst(outcomes)| - |rest|;
      assert NewestFirst(outcomes)[p + k] == outcomes[j].entry;
      assert NewestFirst(outcomes)[q + k] == outcomes[i].entry;
    }
  }

  /** Every accepted entry of `outcomes` occurs in `NewestFirst(outcomes)`. */
  lemma {:induction false} AcceptedPosition(outcomes: seq<Outcome>, i: nat) returns (q: nat)
    requires i < |outcomes| && outcomes[i].Accepted?
    ensures q < |NewestFirst(outcomes)| && NewestFirst(outcomes)[q] == outcomes[i].entry
    decreases |outcomes|
  {
    var n := |outcomes| - 1;
    if i == n {
      q := 0;
    } else {
      var q' := AcceptedPosition(outcomes[..n], i);
      q := q' + |NewestFirst(outcomes)| - |NewestFirst(outcomes[..n])|;
    }
  }
}
