/** The `/upload` route of the Node.js service: the uploaded chat export is split into lines,
    every line is trimmed and parsed, and each parsed line is embedded and added to the vector
    store on its own. A line whose embedding or insertion fails is skipped and the loop goes on.

    The embedding service, the vector store and the clock are outside the model. They appear as
    oracles keyed by the line index: embedOk(i) says whether embedding line i succeeds, addOk(i)
    whether adding its document succeeds (consulted only after a successful embedding), and
    clock(i) is the value of Date.now() when the id of line i is made. */
module ChatUpload {
  import opened Outcomes
  import opened Text
  import opened ChatLine

  /** The metadata object stored with a line. */
  datatype Metadata = Metadata(phone: string, datetime: string, raw: string, lineIndex: nat)

  /** One document handed to collection.add. */
  datatype StoredDoc = StoredDoc(id: string, document: string, metadata: Metadata)

  /** The reply of the route: 400 without a file, otherwise `{ ok: true, inseridos }`. */
  datatype UploadReply = MissingFile | Inserted(inseridos: nat)

  /** `Date.now().toString() + "_" + i` */
  function DocId(nowMs: nat, i: nat): (id: string)
    ensures '_' in id && IsDigit(id[0]) && IsDigit(id[|id| - 1])
    ensures forall c <- id :: IsDigit(c) || c == '_'
  {
    Decimal(nowMs) + "_" + Decimal(i)
  }

  /** The parse of every trimmed line: entry i is what parseLine(lines[i].trim()) returns. */
  function ParseAll(lines: seq<string>): (parsed: seq<Option<Record>>)
    ensures |parsed| == |lines|
  {
    if lines == [] then [] else [ParseLine(Trim(lines[0], IsJsWhitespace))] + ParseAll(lines[1..])
  }

  lemma {:induction false} ParseAllAt(lines: seq<string>, i: nat)
    requires i < |lines|
    ensures ParseAll(lines)[i] == ParseLine(Trim(lines[i], IsJsWhitespace))
  {
    if i > 0 {
      ParseAllAt(lines[1..], i - 1);
    }
  }

  /** `parseLine(lines[i].trim())`: the parse of line i, as ParseAll lists it. */
  method ParseEntry(lines: seq<string>, i: nat) returns (r: Option<Record>)
    requires i < |lines|
    ensures r == ParseAll(lines)[i]
    ensures r.Some? ==> r.value.raw == Trim(lines[i], IsJsWhitespace)
  {
    r := ParseLine(Trim(lines[i], IsJsWhitespace));
    ParseAllAt(lines, i);
  }

  /** The document line i would be stored as. */
  function DocFor(rec: Record, nowMs: nat, i: nat): StoredDoc {
    StoredDoc(DocId(nowMs, i), rec.message, Metadata(rec.phone, rec.datetime, rec.raw, i))
  }

  /** Line i ends up in the store: it parses, its embedding succeeds and so does the insertion. */
  predicate Stored(parsed: seq<Option<Record>>, i: nat, embedOk: nat -> bool, addOk: nat -> bool)
    requires i < |parsed|
  {
    parsed[i].Some? && embedOk(i) && addOk(i)
  }

  /** What line i contributes to the store: its document or nothing. */
  function StepDocs(parsed: seq<Option<Record>>, i: nat, clock: nat -> nat, embedOk: nat -> bool, addOk: nat -> bool): seq<StoredDoc>
    requires i < |parsed|
  {
    if Stored(parsed, i, embedOk, addOk) then [DocFor(parsed[i].value, clock(i), i)] else []
  }

  /** The documents stored for the lines from index `from` on, in line order. */
  function IngestFrom(parsed: seq<Option<Record>>, from: nat, clock: nat -> nat,
                      embedOk: nat -> bool, addOk: nat -> bool): seq<StoredDoc>
    requires from <= |parsed|
    decreases |parsed| - from
  {
    if from == |parsed| then []
    else StepDocs(parsed, from, clock, embedOk, addOk) + IngestFrom(parsed, from + 1, clock, embedOk, addOk)
  }

  /** Number of lines from index `from` on that parse. */
  function ParsedCount(parsed: seq<Option<Record>>, from: nat): nat
    requires from <= |parsed|
    decreases |parsed| - from
  {
    if from == |parsed| then 0
    else (if parsed[from].Some? then 1 else 0) + ParsedCount(parsed, from + 1)
  }

  /** Number of lines from index `from` on that parse but whose embedding or insertion fails. */
  function FailedCount(parsed: seq<Option<Record>>, from: nat, embedOk: nat -> bool, addOk: nat -> bool): nat
    requires from <= |parsed|
    decreases |parsed| - from
  {
    if from == |parsed| then 0
    else
      (if parsed[from].Some? && !(embedOk(from) && addOk(from)) then 1 else 0)
      + FailedCount(parsed, from + 1, embedOk, addOk)
  }

  /** The loop of the route over the lines of the file: trim, parse, skip what does not parse,
      embed and add, count the successes, and swallow the failure of one line. */
  method IngestLines(lines: seq<string>, clock: nat -> nat, embedOk: nat -> bool, addOk: nat -> bool)
    returns (inseridos: nat, added: seq<StoredDoc>)
    ensures added == IngestFrom(ParseAll(lines), 0, clock, embedOk, addOk)
    ensures inseridos == |added|
  {
    ghost var parsedAll := ParseAll(lines);
    inseridos, added := 0, [];
    var i := 0;
    while i < |lines|
      invariant 0 <= i <= |lines|
      invariant added == IngestTo(parsedAll, i, clock, embedOk, addOk)
      invariant inseridos == |added|
    {
      var stored := IngestLine(lines, i, clock, embedOk, addOk);
      added := added + stored;
      inseridos := inseridos + |stored|;
      IngestToStep(parsedAll, i, clock, embedOk, addOk);
      i := i + 1;
    }
    IngestToFrom(parsedAll, |lines|, clock, embedOk, addOk);
  }

  /** One round of the loop: trim and parse line i; a line that does not parse is skipped,
      otherwise the try block runs. The result is what the round adds. */
  method IngestLine(lines: seq<string>, i: nat, clock: nat -> nat, embedOk: nat -> bool, addOk: nat -> bool)
    returns (stored: seq<StoredDoc>)
    requires i < |lines|
    ensures stored == StepDocs(ParseAll(lines), i, clock, embedOk, addOk)
  {
    var parsed := ParseEntry(lines, i);
    if parsed.None? {
      return [];
    }
    stored := TryStore(parsed.value, i, clock, embedOk, addOk);
  }

  /** The try block for a parsed line: embed the message, make the id from the clock and the
      line index, add the document; a failure of either call stores nothing. */
  method TryStore(rec: Record, i: nat, clock: nat -> nat, embedOk: nat -> bool, addOk: nat -> bool)
    returns (stored: seq<StoredDoc>)
    ensures stored == (if embedOk(i) && addOk(i) then [DocFor(rec, clock(i), i)] else [])
  {
    stored := [];
    if embedOk(i) {
      var docId := DocId(clock(i), i);
      if addOk(i) {
        stored := [StoredDoc(docId, rec.message, Metadata(rec.phone, rec.datetime, rec.raw, i))];
      }
    }
  }

  /** The documents stored for the lines before index `to`: what the loop has added so far. */
  function IngestTo(parsed: seq<Option<Record>>, to: nat, clock: nat -> nat,
                    embedOk: nat -> bool, addOk: nat -> bool): seq<StoredDoc>
    requires to <= |parsed|
  {
    if to == 0 then [] else IngestTo(parsed, to - 1, clock, embedOk, addOk) + StepDocs(parsed, to - 1, clock, embedOk, addOk)
  }

  lemma IngestToStep(parsed: seq<Option<Record>>, i: nat, clock: nat -> nat, embedOk: nat -> bool, addOk: nat -> bool)
    requires i < |parsed|
    ensures IngestTo(parsed, i + 1, clock, embedOk, addOk)
      == IngestTo(parsed, i, clock, embedOk, addOk) + StepDocs(parsed, i, clock, embedOk, addOk)
  {
  }

  /** What the loop has added and what the remaining lines add make up the whole result. */
  lemma {:induction false} IngestToFrom(parsed: seq<Option<Record>>, to: nat, clock: nat -> nat,
                                        embedOk: nat -> bool, addOk: nat -> bool)
    requires to <= |parsed|
    ensures IngestTo(parsed, to, clock, embedOk, addOk) + IngestFrom(parsed, to, clock, embedOk, addOk)
      == IngestFrom(parsed, 0, clock, embedOk, addOk)
  {
    if to > 0 {
      IngestToFrom(parsed, to - 1, clock, embedOk, addOk);
      var before, step := IngestTo(parsed, to - 1, clock, embedOk, addOk), StepDocs(parsed, to - 1, clock, embedOk, addOk);
      var rest := IngestFrom(parsed, to, clock, embedOk, addOk);
      assert IngestFrom(parsed, to - 1, clock, embedOk, addOk) == step + rest;
      DocsAssoc(before, step, rest);
    }
  }

  lemma DocsAssoc(a: seq<StoredDoc>, b: seq<StoredDoc>, c: seq<StoredDoc>)
    ensures (a + b) + c == a + (b + c)
  {
  }

  /** The route: without a file it answers 400; otherwise it splits the content on "\n" and
      runs the loop. */
  method Upload(file: Option<string>, clock: nat -> nat, embedOk: nat -> bool, addOk: nat -> bool)
    returns (reply: UploadReply, added: seq<StoredDoc>)
    ensures file.None? ==> reply == MissingFile && added == []
    ensures file.Some? ==>
      var parsed := ParseAll(SplitOn(file.value, '\n'));
      && added == IngestFrom(parsed, 0, clock, embedOk, addOk)
      && reply == Inserted(|added|)
      && |added| <= ParsedCount(parsed, 0)
  {
    if file.None? {
      return MissingFile, [];
    }
    var lines := SplitOn(file.value, '\n');
    var inseridos;
    inseridos, added := IngestLines(lines, clock, embedOk, addOk);
    IngestCount(ParseAll(lines), 0, clock, embedOk, addOk);
    reply := Inserted(inseridos);
  }

  /** Every stored document comes from a line that parsed and whose embedding and insertion
      both succeeded; its text is the parsed message, its metadata the parsed fields with the
      line index, and its id is made from the clock and that index. */
  lemma {:induction false} IngestSound(parsed: seq<Option<Record>>, from: nat, clock: nat -> nat,
                                       embedOk: nat -> bool, addOk: nat -> bool, d: StoredDoc)
    requires from <= |parsed|
    requires d in IngestFrom(parsed, from, clock, embedOk, addOk)
    ensures from <= d.metadata.lineIndex < |parsed|
    ensures Stored(parsed, d.metadata.lineIndex, embedOk, addOk)
    ensures d == DocFor(parsed[d.metadata.lineIndex].value, clock(d.metadata.lineIndex), d.metadata.lineIndex)
    decreases |parsed| - from
  {
    var rest := IngestFrom(parsed, from + 1, clock, embedOk, addOk);
    if d !in rest {
      assert d in StepDocs(parsed, from, clock, embedOk, addOk);
    } else {
      IngestSound(parsed, from + 1, clock, embedOk, addOk, d);
    }
  }

  /** A line that parses and whose calls succeed is stored, whatever happened to the other
      lines: a failure on one line does not stop the loop. */
  lemma {:induction false} IngestComplete(parsed: seq<Option<Record>>, from: nat, clock: nat -> nat,
                                          embedOk: nat -> bool, addOk: nat -> bool, i: nat)
    requires from <= i < |parsed|
    requires Stored(parsed, i, embedOk, addOk)
    ensures DocFor(parsed[i].value, clock(i), i) in IngestFrom(parsed, from, clock, embedOk, addOk)
    decreases i - from
  {
    if i > from {
      IngestComplete(parsed, from + 1, clock, embedOk, addOk, i);
    }
  }

  /** The line indices of docs strictly increase. */
  predicate LineOrdered(docs: seq<StoredDoc>) {
    forall a, b :: 0 <= a < b < |docs| ==> docs[a].metadata.lineIndex < docs[b].metadata.lineIndex
  }

  /** The documents are in line order, each line at most once. */
  lemma {:induction false} IngestOrdered(parsed: seq<Option<Record>>, from: nat, clock: nat -> nat,
                                         embedOk: nat -> bool, addOk: nat -> bool)
    requires from <= |parsed|
    ensures LineOrdered(IngestFrom(parsed, from, clock, embedOk, addOk))
    decreases |parsed| - from
  {
    if from < |parsed| {
      var docs := IngestFrom(parsed, from, clock, embedOk, addOk);
      var step := StepDocs(parsed, from, clock, embedOk, addOk);
      var rest := IngestFrom(parsed, from + 1, clock, embedOk, addOk);
      assert docs == step + rest;
      IngestOrdered(parsed, from + 1, clock, embedOk, addOk);
      assert LineOrdered(rest);
      forall a, b | 0 <= a < b < |docs| ensures docs[a].metadata.lineIndex < docs[b].metadata.lineIndex {
        var k := |step|;
        assert docs[b] == rest[b - k];
        if a < k {
          assert docs[a] == step[a] == DocFor(parsed[from].value, clock(from), from);
          assert rest[b - k] in rest;
          IngestSound(parsed, from + 1, clock, embedOk, addOk, rest[b - k]);
        } else {
          assert docs[a] == rest[a - k];
        }
      }
    }
  }

  /** Ids of two different lines differ, whatever the clock read: the decimal digits of the
      clock contain no "_", so the "_" fixes where the line index starts. */
  lemma DocIdInjective(t1: nat, i1: nat, t2: nat, i2: nat)
    requires DocId(t1, i1) == DocId(t2, i2)
    ensures t1 == t2 && i1 == i2
  {
    var a, b := Decimal(t1), Decimal(t2);
    assert !IsDigit('_');
    assert '_' !in a && '_' !in b;
    assert DocId(t1, i1) == a + ['_'] + Decimal(i1) && DocId(t2, i2) == b + ['_'] + Decimal(i2);
    SplitAtSeparator(a, Decimal(i1), b, Decimal(i2), '_');
    DecimalInjective(t1, t2);
    DecimalInjective(i1, i2);
  }

  /** Within one upload all ids are pairwise distinct. */
  lemma IngestIdsDistinct(parsed: seq<Option<Record>>, clock: nat -> nat, embedOk: nat -> bool, addOk: nat -> bool)
    ensures var docs := IngestFrom(parsed, 0, clock, embedOk, addOk);
      forall a, b :: 0 <= a < b < |docs| ==> docs[a].id != docs[b].id
  {
    var docs := IngestFrom(parsed, 0, clock, embedOk, addOk);
    IngestOrdered(parsed, 0, clock, embedOk, addOk);
    assert LineOrdered(docs);
    forall a, b | 0 <= a < b < |docs| ensures docs[a].id != docs[b].id {
      IngestSound(parsed, 0, clock, embedOk, addOk, docs[a]);
      IngestSound(parsed, 0, clock, embedOk, addOk, docs[b]);
      if docs[a].id == docs[b].id {
        DocIdInjective(clock(docs[a].metadata.lineIndex), docs[a].metadata.lineIndex,
                       clock(docs[b].metadata.lineIndex), docs[b].metadata.lineIndex);
      }
    }
  }

  /** Counting: stored and failed lines together are exactly the parsed lines, so the count
      reported never exceeds the number of parsed lines, and equals it when no call fails. */
  lemma IngestCount(parsed: seq<Option<Record>>, from: nat, clock: nat -> nat,
                    embedOk: nat -> bool, addOk: nat -> bool)
    requires from <= |parsed|
    ensures |IngestFrom(parsed, from, clock, embedOk, addOk)| + FailedCount(parsed, from, embedOk, addOk)
      == ParsedCount(parsed, from)
    ensures |IngestFrom(parsed, from, clock, embedOk, addOk)| <= ParsedCount(parsed, from)
    ensures (forall i :: from <= i < |parsed| && parsed[i].Some? ==> embedOk(i) && addOk(i)) ==>
      |IngestFrom(parsed, from, clock, embedOk, addOk)| == ParsedCount(parsed, from)
  {
    StoredPlusFailed(parsed, from, clock, embedOk, addOk);
    if forall i :: from <= i < |parsed| && parsed[i].Some? ==> embedOk(i) && addOk(i) {
      NoFailures(parsed, from, embedOk, addOk);
    }
  }

  /** Every parsed line is either stored or counted as failed. */
  lemma {:induction false} StoredPlusFailed(parsed: seq<Option<Record>>, from: nat, clock: nat -> nat,
                                            embedOk: nat -> bool, addOk: nat -> bool)
    requires from <= |parsed|
    ensures |IngestFrom(parsed, from, clock, embedOk, addOk)| + FailedCount(parsed, from, embedOk, addOk)
      == ParsedCount(parsed, from)
    decreases |parsed| - from
  {
    if from < |parsed| {
      StoredPlusFailed(parsed, from + 1, clock, embedOk, addOk);
    }
  }

  /** When every parsed line's embedding and insertion succeed, no line fails. */
  lemma {:induction false} NoFailures(parsed: seq<Option<Record>>, from: nat, embedOk: nat -> bool, addOk: nat -> bool)
    requires from <= |parsed|
    requires forall i :: from <= i < |parsed| && parsed[i].Some? ==> embedOk(i) && addOk(i)
    ensures FailedCount(parsed, from, embedOk, addOk) == 0
    decreases |parsed| - from
  {
    if from < |parsed| {
      NoFailures(parsed, from + 1, embedOk, addOk);
    }
  }
}
