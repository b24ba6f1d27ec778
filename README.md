# NF-e upload ledger: a Dafny model

This project models the upload branch of the single web handler `index()` in
`C.py`. A POST carries an NF-e invoice as an XML file. The handler looks up
four optional fields in the namespace `http://www.portalfiscal.inf.br/nfe`:
`xNome` (supplier), `nNF` (invoice number), `vNF` (value) and `dhSaiEnt`
(date). It refuses an invoice number that is already in the module-level list
`entries`. Otherwise it builds an entry, filling missing fields with fixed
defaults and stamping the time of day, and inserts it at the head of the list,
so the list is newest first. Every exception the handler catches becomes a
message on the page: a fixed text for a parse error or a missing element, and
"Ocorreu um erro: " followed by the exception's own text for any other
exception. A failure never changes the list.

Files:

- `wrappers.dfy`: `Option` and `Result`.
- `invoice.dfy` (module `Invoice`): the parsed document as four optional
  element lookups, the entry, the kinds of caught exception, and `BuildEntry`,
  which builds an entry with its defaults.
- `index.dfy` (module `Index`): the duplicate check `Processed` (the `any(...)`
  scan), the pure transition `Handle` for one POST, the class `Ledger` whose
  field `entries` the method `Upload` updates in place, and the mapping from
  outcome to message and reply.
- `ledger_lemmas.dfy` (module `LedgerLemmas`): what each kind of request does,
  and what holds after any sequence of requests (`Run`).

The model follows the code, including this quirk. The duplicate test reads
`invoice.text` inside a generator, and the generator is only evaluated once
there is an entry to compare with. So a document without `nNF` raises
`AttributeError` (the invalid-file message) whenever the ledger is non-empty,
and the `"N/A"` default is stored only into an empty ledger. In particular, a
second document without an invoice number is not reported as a duplicate of
the first: it gets the invalid-file message (`SecondUploadIsRefused`).

An element's `.text` is `None` when the element has no text, so element texts
and the supplier, invoice and date fields of an entry are `Option<string>`.
Two entries whose invoice fields are both `None` count as duplicates, as
`None == None` does in Python.

Parameters stand in for what the model cannot see:

- The clock: `now` is the string `datetime.now().strftime("%H:%M:%S")` would give.
- The number conversion: `format: ValueFormatter` maps a string `s` to
  `f"{float(s):.2f}"`, or to the message of the `ValueError` that `float`
  raises. A `vNF` element without text is handled by the model itself:
  `float(None)` raises `TypeError`, whose message is the constant
  `NoneToFloatMessage`.
- The XML parser: a `FilePart` is either `Malformed` (`ET.ParseError`) or the
  results of the four lookups.

## Model

| member | source | states |
|---|---|---|
| `Invoice.BuildEntry` | C.py:170-176 | Only the value conversion can fail: when the `vNF` element has no text (the `TypeError` of `float(None)`) or when `float` rejects its text, each with that exception's message. A successful entry carries the given time. Each present field is copied verbatim: supplier, invoice and date text, plus the formatted value. Each absent field gets its default: "Desconhecido", "N/A", "0.00" or "Data não encontrada". |
| `Index.Processed` | C.py:167 | The `any` scan fails with `AttributeError` exactly when the ledger is non-empty and `nNF` is missing. It reports true exactly when `nNF` is present and some entry has the same invoice text. |
| `Index.Handle` | C.py:153-187 | One POST. It is accepted exactly when the file part is well-formed XML, the duplicate check reports no match without raising, and the entry can be built; the accepted entry is the one `BuildEntry` gives for the clock string. When the outcome is not an acceptance, the ledger is unchanged. On acceptance, the new ledger is the new entry followed by all old entries in their old order. An accepted entry's invoice number differs from every old one. The outcome is `NoFile` exactly when the request has no `file` part. |
| `Index.HandleKeepsDistinct` | C.py:167-178 | If invoice numbers were pairwise distinct before a POST, they still are after it. |
| `Index.Ledger.constructor` | C.py:8 | The ledger starts empty and satisfies its invariant. |
| `Index.Ledger.Upload` | C.py:153-187 | Updates `entries` in place exactly as `Handle` prescribes, returns `Handle`'s outcome and keeps invoice numbers distinct. |
| `Index.FaultMessage` | C.py:182-187 | Each caught exception gets a non-empty message. The generic branch's message starts with "Ocorreu um erro: " exactly for the generic exceptions, and the exception's text follows it unchanged. |
| `Index.Message` | C.py:167-187 | `error_message` after the `try`: none exactly for a missing file part or an accepted entry. Otherwise it is a non-empty message, the except clause's message for a caught exception. |
| `Index.Respond` | C.py:189-192 | The handler redirects exactly when the request had no file or the entry was accepted. Otherwise it shows the page with the outcome's message. |
| `LedgerLemmas.DuplicateIsRejected` | C.py:167-168 | A document whose `nNF` text is already recorded gets "Este arquivo já foi processado." and leaves the ledger unchanged. |
| `LedgerLemmas.FreshInvoiceIsAccepted` | C.py:167-178 | A document with a new `nNF` text and a convertible or absent value is accepted. The entry built from it is put at the head of the ledger, and the handler redirects. |
| `LedgerLemmas.MissingInvoiceIsInvalid` | C.py:167-185 | On a non-empty ledger, a document without `nNF` raises `AttributeError` and gets the invalid-file message. Nothing is inserted. |
| `LedgerLemmas.DefaultInvoiceOnlyWhenEmpty` | C.py:167-172 | If a document without `nNF` is accepted, the ledger was empty and the stored invoice is "N/A". |
| `LedgerLemmas.BadValueIsReported` | C.py:170-187 | If the value is not convertible (no text, or text `float` rejects), the ledger is unchanged. When the duplicate check passed, the outcome is the generic exception with `float`'s message, shown after "Ocorreu um erro: ". |
| `LedgerLemmas.NonDocumentsChangeNothing` | C.py:154-192 | Malformed XML gives the parse-error message. A POST without a `file` part redirects with no message. Neither changes the ledger. |
| `LedgerLemmas.SecondUploadIsRefused` | C.py:167-185 | Re-uploading a just-accepted document changes nothing. The outcome is the duplicate message when it has `nNF` and the invalid-file message when it does not. |
| `LedgerLemmas.MessageIdentifiesOutcome` | C.py:168-187 | Two different outcomes never produce the same message. |
| `LedgerLemmas.RunIsNewestFirst` | C.py:178 | After any sequence of POSTs, the ledger is the accepted entries (most recent first) followed by the starting entries. |
| `LedgerLemmas.RunKeepsDistinct` | C.py:167-178 | After any sequence of POSTs, invoice numbers in the ledger are pairwise distinct. |
| `LedgerLemmas.AcceptsEachInvoiceOnce` | C.py:167-178 | Starting from an empty ledger, no two accepted uploads in a sequence carry the same invoice number. |

## Left out

- Flask routing, the GET branch, `render_template_string`, `redirect` and the HTML template (C.py:1-145, 194-197) are presentation. `Respond` only says which of the two replies is chosen.
- XML parsing and `root.find` are library code. A document is the result of its four lookups, or `Malformed`. Other exceptions `ET.parse` might raise, such as an unreadable stream, are not modelled.
- `float` and `:.2f` formatting are floating point. They are the parameter `format`, so a claim such as "12.5" giving "12.50" is not stated.
- The wall clock is the parameter `now`.
- Concurrency: the source has no locking. The model is sequential, and a race between two POSTs is not modelled.
- The unused path `pasta_nfe` (C.py:151), the unreachable `FileNotFoundError` branch (C.py:180-181) and the unused imports `os` and `time` are dead code.
- A separate snapshot operation for readers does not exist in the source. The page reads `entries` directly, which is the `Ledger.entries` field here.
