/** The Python retrieval service: `/upload` stores the sentences of a text file in the vector
    store, and `/ia-prompt` answers a question from the documents the store retrieves for it.

    The embedding model, the vector store, the language model and the uuid generator are outside
    the model. They appear as oracles: newId(i) is the uuid made for sentence i, embed(i) the
    outcome of embedding sentence i, addOk(batch) whether collection.add accepts a batch;
    for a query, embed(q), search(vector, k) and generate(prompt) give the outcome of each call,
    an Err carrying the text of the exception raised. */
module RagApi {
  import opened Outcomes
  import opened Text
  import opened Sentences

  type Vector = seq<real>

  /** The metadata of a stored document, as the store returns it. */
  type Meta = map<string, string>

  /** An HTTPException: status code and detail. */
  datatype HttpError = HttpError(status: nat, detail: string)

  /** What FastAPI answers when the handler raises anything other than an HTTPException. */
  const InternalError := HttpError(500, "Internal Server Error")

  // ----- The file name check -----

  /** `str.lower` on the characters that can end a ".txt" suffix: only ASCII capitals fold onto
      '.', 't' and 'x', and no other character lowers to one of them. */
  function AsciiLower(c: char): (l: char)
    ensures 'A' <= c <= 'Z' ==> 'a' <= l <= 'z'
  {
    if 'A' <= c <= 'Z' then (c as int + 32) as char else c
  }

  /** `filename.lower().endswith('.txt')` */
  predicate HasTxtSuffix(name: string) {
    |name| >= 4 && forall k :: 0 <= k < 4 ==> AsciiLower(name[|name| - 4 + k]) == ".txt"[k]
  }

  /** The accepted names end in a dot followed by t, x, t in either case, and in nothing else. */
  lemma TxtSuffixIff(name: string)
    ensures HasTxtSuffix(name) <==>
      && |name| >= 4
      && name[|name| - 4] == '.'
      && (name[|name| - 3] == 't' || name[|name| - 3] == 'T')
      && (name[|name| - 2] == 'x' || name[|name| - 2] == 'X')
      && (name[|name| - 1] == 't' || name[|name| - 1] == 'T')
  {
    if |name| >= 4 {
      var n := |name|;
      assert ".txt"[0] == '.' && ".txt"[1] == 't' && ".txt"[2] == 'x' && ".txt"[3] == 't';
      if HasTxtSuffix(name) {
        assert AsciiLower(name[n - 4 + 0]) == '.';
        assert AsciiLower(name[n - 4 + 1]) == 't';
        assert AsciiLower(name[n - 4 + 2]) == 'x';
        assert AsciiLower(name[n - 4 + 3]) == 't';
      }
    }
  }

  // ----- /upload -----

  /** The metadata every sentence of a file is stored with: `{"source": filename}`. */
  function SourceMeta(filename: string): Meta {
    map["source" := filename]
  }

  /** The four lists handed to collection.add. */
  datatype Batch = Batch(ids: seq<string>, metadatas: seq<Meta>, documents: seq<string>, embeddings: seq<Vector>)

  /** One entry per document in every list, as the vector store expects. */
  predicate Aligned(b: Batch) {
    |b.ids| == |b.documents| && |b.metadatas| == |b.documents| && |b.embeddings| == |b.documents|
  }

  /** The embeddings of those of the first n sentences whose embedding succeeds, in order. */
  function Successes(embed: nat -> Result<Vector, string>, n: nat): (r: seq<Vector>)
    ensures |r| <= n
  {
    if n == 0 then []
    else Successes(embed, n - 1) + (if embed(n - 1).Ok? then [embed(n - 1).value] else [])
  }

  /** All n embeddings succeed exactly when every one of them is kept. */
  lemma {:induction false} SuccessesFullIff(embed: nat -> Result<Vector, string>, n: nat)
    ensures |Successes(embed, n)| == n <==> forall i :: 0 <= i < n ==> embed(i).Ok?
  {
    if n > 0 {
      SuccessesFullIff(embed, n - 1);
      if |Successes(embed, n)| == n {
        assert |Successes(embed, n - 1)| == n - 1;
      }
    }
  }

  /** Nothing is kept exactly when every embedding fails. */
  lemma {:induction false} SuccessesEmptyIff(embed: nat -> Result<Vector, string>, n: nat)
    ensures Successes(embed, n) == [] <==> forall i :: 0 <= i < n ==> embed(i).Err?
  {
    if n > 0 {
      SuccessesEmptyIff(embed, n - 1);
    }
  }

  /** The batch the loop of upload_file builds: an id, a metadata entry and a document for every
      sentence, but an embedding only for the sentences whose embedding succeeded. */
  function LoopBatch(sentences: seq<string>, filename: string, newId: nat -> string,
                     embed: nat -> Result<Vector, string>): (b: Batch)
    ensures |b.ids| == |b.metadatas| == |b.documents| == |sentences|
    ensures |b.embeddings| <= |sentences|
  {
    Batch(seq(|sentences|, i requires 0 <= i => newId(i)), seq(|sentences|, _ => SourceMeta(filename)), sentences,
          Successes(embed, |sentences|))
  }

  /** The loop over the sentences: append the id, metadata and document, then try to embed and
      append the embedding; a failed embedding is logged and skipped. */
  method CollectBatch(sentences: seq<string>, filename: string, newId: nat -> string,
                      embed: nat -> Result<Vector, string>)
    returns (batch: Batch)
    ensures batch == LoopBatch(sentences, filename, newId, embed)
  {
    var ids: seq<string>, metadatas: seq<Meta>, documents: seq<string>, embeddings: seq<Vector> := [], [], [], [];
    for i := 0 to |sentences|
      invariant |ids| == i && forall k :: 0 <= k < i ==> ids[k] == newId(k)
      invariant |metadatas| == i && forall k :: 0 <= k < i ==> metadatas[k] == SourceMeta(filename)
      invariant documents == sentences[..i]
      invariant embeddings == Successes(embed, i)
    {
      var sid := newId(i);
      ids := ids + [sid];
      metadatas := metadatas + [SourceMeta(filename)];
      documents := documents + [sentences[i]];
      var emb := embed(i);
      if emb.Ok? {
        embeddings := embeddings + [emb.value];
      }
    }
    assert documents == sentences;
    batch := Batch(ids, metadatas, documents, embeddings);
  }

  /** upload_file as written. `handed` is the batch given to collection.add, if it is called. */
  method UploadFile(filename: string, text: string, newId: nat -> string,
                    embed: nat -> Result<Vector, string>, addOk: Batch -> bool)
    returns (reply: Result<nat, HttpError>, handed: Option<Batch>)
    ensures !HasTxtSuffix(filename) ==>
      reply == Err(HttpError(400, "Only .txt files are supported")) && handed == None
    ensures HasTxtSuffix(filename) && AllIn(text, IsPyWhitespace) ==>
      reply == Err(HttpError(400, "No text found in file")) && handed == None
    ensures HasTxtSuffix(filename) && !AllIn(text, IsPyWhitespace) ==>
      var batch := LoopBatch(Sentences.Sentences(text), filename, newId, embed);
      if batch.embeddings == [] then
        reply == Err(HttpError(500, "Failed to generate any embeddings")) && handed == None
      else
        handed == Some(batch) && reply == (if addOk(batch) then Ok(|batch.embeddings|) else Err(InternalError))
  {
    if !HasTxtSuffix(filename) {
      return Err(HttpError(400, "Only .txt files are supported")), None;
    }
    var sentences := SplitIntoSentences(text);
    SentencesEmptyIff(text);
    if sentences == [] {
      return Err(HttpError(400, "No text found in file")), None;
    }
    var batch := CollectBatch(sentences, filename, newId, embed);
    if batch.embeddings == [] {
      return Err(HttpError(500, "Failed to generate any embeddings")), None;
    }
    handed := Some(batch);
    if addOk(batch) {
      reply := Ok(|batch.embeddings|);
    } else {
      reply := Err(InternalError);
    }
  }

  /** The batch of the loop as written has one id, metadata entry and document per sentence, so
      it is aligned exactly when no embedding fails. */
  lemma LoopBatchAlignedIff(sentences: seq<string>, filename: string, newId: nat -> string,
                            embed: nat -> Result<Vector, string>)
    ensures var b := LoopBatch(sentences, filename, newId, embed);
      && |b.ids| == |b.metadatas| == |b.documents| == |sentences|
      && (Aligned(b) <==> forall i :: 0 <= i < |sentences| ==> embed(i).Ok?)
  {
    SuccessesFullIff(embed, |sentences|);
  }

  /** When one sentence fails to embed and another succeeds, upload_file hands collection.add a
      batch with more ids and documents than embeddings. */
  lemma UploadMisaligned(sentences: seq<string>, filename: string, newId: nat -> string,
                         embed: nat -> Result<Vector, string>, i: nat, j: nat)
    requires i < |sentences| && j < |sentences|
    requires embed(i).Err? && embed(j).Ok?
    ensures var b := LoopBatch(sentences, filename, newId, embed);
      b.embeddings != [] && |b.embeddings| < |b.ids|
  {
    SuccessesEmptyIff(embed, |sentences|);
    SuccessesFullIff(embed, |sentences|);
  }

  /** The smallest case: two sentences, the first of which fails to embed. */
  lemma UploadMisalignedExample(v: Vector)
    ensures var embed := (i: nat) => if i == 0 then Err("timeout") else Ok(v);
      var b := LoopBatch(["A.", "B."], "notes.txt", (i: nat) => "id", embed);
      |b.ids| == 2 && b.embeddings == [v]
  {
    var embed := (i: nat) => if i == 0 then Err("timeout") else Ok(v);
    assert Successes(embed, 1) == [];
  }

  /** The batch the loop should build: the id, metadata and document of a sentence are kept
      only together with its embedding. */
  function AlignedUpTo(sentences: seq<string>, filename: string, newId: nat -> string,
                       embed: nat -> Result<Vector, string>, n: nat): (b: Batch)
    requires n <= |sentences|
    ensures Aligned(b) && |b.ids| <= n
  {
    if n == 0 then Batch([], [], [], [])
    else
      var b := AlignedUpTo(sentences, filename, newId, embed, n - 1);
      if embed(n - 1).Ok? then
        Batch(b.ids + [newId(n - 1)], b.metadatas + [SourceMeta(filename)], b.documents + [sentences[n - 1]],
              b.embeddings + [embed(n - 1).value])
      else b
  }

  /** The corrected batch is aligned, holds the same embeddings as the batch as written, and is
      that batch whenever no embedding fails. */
  lemma {:induction false} AlignedUpToSpec(sentences: seq<string>, filename: string, newId: nat -> string,
                                           embed: nat -> Result<Vector, string>, n: nat)
    requires n <= |sentences|
    ensures var b := AlignedUpTo(sentences, filename, newId, embed, n);
      && Aligned(b)
      && b.embeddings == Successes(embed, n)
      && (forall m :: 0 <= m < |b.metadatas| ==> b.metadatas[m] == SourceMeta(filename))
  {
    if n > 0 {
      AlignedUpToSpec(sentences, filename, newId, embed, n - 1);
    }
  }

  /** The indices below n whose embedding succeeds, in increasing order. */
  function OkIndices(embed: nat -> Result<Vector, string>, n: nat): (idx: seq<nat>)
    ensures |idx| <= n
    ensures forall m :: 0 <= m < |idx| ==> idx[m] < n && embed(idx[m]).Ok?
  {
    if n == 0 then []
    else OkIndices(embed, n - 1) + (if embed(n - 1).Ok? then [n - 1] else [])
  }

  /** Entry m of the corrected batch belongs to one sentence, the m-th whose embedding succeeds:
      its id, document and embedding are those of that sentence, the sentences keep their
      order, and every sentence whose embedding succeeds is there. */
  lemma {:induction false} AlignedUpToPairs(sentences: seq<string>, filename: string, newId: nat -> string,
                                            embed: nat -> Result<Vector, string>, n: nat)
    requires n <= |sentences|
    ensures var b, idx := AlignedUpTo(sentences, filename, newId, embed, n), OkIndices(embed, n);
      && |idx| == |b.ids| == |b.documents| == |b.embeddings|
      && (forall m :: 0 <= m < |idx| ==>
            b.ids[m] == newId(idx[m]) && b.documents[m] == sentences[idx[m]] && b.embeddings[m] == embed(idx[m]).value)
      && (forall m, m' :: 0 <= m < m' < |idx| ==> idx[m] < idx[m'])
      && (forall i :: 0 <= i < n && embed(i).Ok? ==> i in idx)
  {
    if n > 0 {
      AlignedUpToPairs(sentences, filename, newId, embed, n - 1);
      var b0, idx0 := AlignedUpTo(sentences, filename, newId, embed, n - 1), OkIndices(embed, n - 1);
      var b, idx := AlignedUpTo(sentences, filename, newId, embed, n), OkIndices(embed, n);
      if embed(n - 1).Ok? {
        assert idx == idx0 + [n - 1];
        forall m | 0 <= m < |idx|
          ensures b.ids[m] == newId(idx[m]) && b.documents[m] == sentences[idx[m]] && b.embeddings[m] == embed(idx[m]).value
        {
          if m < |idx0| {
            assert idx[m] == idx0[m] && b.ids[m] == b0.ids[m] && b.documents[m] == b0.documents[m] && b.embeddings[m] == b0.embeddings[m];
          }
        }
        forall i | 0 <= i < n && embed(i).Ok? ensures i in idx {
          if i < n - 1 {
            assert i in idx0;
          } else {
            assert idx[|idx0|] == i;
          }
        }
      } else {
        assert idx == idx0 && b == b0;
      }
    }
  }

  lemma {:induction false} AlignedUpToAllOk(sentences: seq<string>, filename: string, newId: nat -> string,
                                            embed: nat -> Result<Vector, string>, n: nat)
    requires n <= |sentences|
    requires forall i :: 0 <= i < n ==> embed(i).Ok?
    ensures var b := AlignedUpTo(sentences, filename, newId, embed, n);
      && b.documents == sentences[..n]
      && |b.ids| == n && (forall k :: 0 <= k < n ==> b.ids[k] == newId(k))
  {
    if n > 0 {
      AlignedUpToAllOk(sentences, filename, newId, embed, n - 1);
      assert sentences[..n] == sentences[..n - 1] + [sentences[n - 1]];
    }
  }

  /** The loop with the fix: append the id, metadata and document only after the embedding of
      the sentence has succeeded. */
  method CollectAlignedBatch(sentences: seq<string>, filename: string, newId: nat -> string,
                             embed: nat -> Result<Vector, string>)
    returns (batch: Batch)
    ensures batch == AlignedUpTo(sentences, filename, newId, embed, |sentences|)
    ensures Aligned(batch)
  {
    batch := Batch([], [], [], []);
    for i := 0 to |sentences|
      invariant batch == AlignedUpTo(sentences, filename, newId, embed, i)
    {
      var emb := embed(i);
      if emb.Ok? {
        var sid := newId(i);
        batch := Batch(batch.ids + [sid], batch.metadatas + [SourceMeta(filename)],
                       batch.documents + [sentences[i]], batch.embeddings + [emb.value]);
      }
    }
    AlignedUpToSpec(sentences, filename, newId, embed, |sentences|);
  }

  /** upload_file with the fix: the replies are those of the route as written, and the batch it
      hands to collection.add is always aligned. */
  method UploadFileAligned(filename: string, text: string, newId: nat -> string,
                           embed: nat -> Result<Vector, string>, addOk: Batch -> bool)
    returns (reply: Result<nat, HttpError>, handed: Option<Batch>)
    ensures !HasTxtSuffix(filename) ==>
      reply == Err(HttpError(400, "Only .txt files are supported")) && handed == None
    ensures HasTxtSuffix(filename) && AllIn(text, IsPyWhitespace) ==>
      reply == Err(HttpError(400, "No text found in file")) && handed == None
    ensures HasTxtSuffix(filename) && !AllIn(text, IsPyWhitespace) ==>
      var sentences := Sentences.Sentences(text);
      if forall i :: 0 <= i < |sentences| ==> embed(i).Err? then
        reply == Err(HttpError(500, "Failed to generate any embeddings")) && handed == None
      else
        var batch := AlignedUpTo(sentences, filename, newId, embed, |sentences|);
        handed == Some(batch) && reply == (if addOk(batch) then Ok(|batch.ids|) else Err(InternalError))
    ensures handed.Some? ==> Aligned(handed.value) && handed.value.ids != []
  {
    if !HasTxtSuffix(filename) {
      return Err(HttpError(400, "Only .txt files are supported")), None;
    }
    var sentences := SplitIntoSentences(text);
    SentencesEmptyIff(text);
    if sentences == [] {
      return Err(HttpError(400, "No text found in file")), None;
    }
    var batch := CollectAlignedBatch(sentences, filename, newId, embed);
    AlignedUpToSpec(sentences, filename, newId, embed, |sentences|);
    SuccessesEmptyIff(embed, |sentences|);
    if batch.embeddings == [] {
      return Err(HttpError(500, "Failed to generate any embeddings")), None;
    }
    handed := Some(batch);
    if addOk(batch) {
      reply := Ok(|batch.ids|);
    } else {
      reply := Err(InternalError);
    }
  }

  // ----- /ia-prompt -----

  /** What collection.query returns for the one query vector. */
  datatype Retrieved = Retrieved(ids: seq<string>, documents: seq<string>, metadatas: seq<Meta>, distances: seq<real>)

  /** One entry of the "sources" list of the answer. */
  datatype SourceRef = SourceRef(id: string, source: Option<string>, distance: real, text: string)

  datatype Answer = Answer(answer: string, sources: seq<SourceRef>)

  /** `not q or not q.strip()` */
  predicate IsBlank(q: string) {
    q == [] || Trim(q, IsPyWhitespace) == []
  }

  /** A query is rejected exactly when it is empty or whitespace only. */
  lemma BlankIff(q: string)
    ensures IsBlank(q) <==> AllIn(q, IsPyWhitespace)
  {
    TrimEmptyIff(q, IsPyWhitespace);
  }

  /** `metas[i].get('source')` */
  function MetaSource(m: Meta): (src: Option<string>)
    ensures src.Some? <==> "source" in m
  {
    if "source" in m then Some(m["source"]) else None
  }

  /** `src or 'unknown'` with `src = metas[i].get('source') if i < len(metas) else None`. */
  function SourceLabel(metas: seq<Meta>, i: nat): (name: string)
    ensures name != []
  {
    if i < |metas| && MetaSource(metas[i]).Some? && MetaSource(metas[i]).value != [] then metas[i]["source"]
    else "unknown"
  }

  /** `f"Source: {src or 'unknown'}\n{d}"` */
  function ContextPiece(name: string, doc: string): string {
    "Source: " + name + "\n" + doc
  }

  /** The context pieces, one per retrieved document. */
  function ContextPieces(docs: seq<string>, metas: seq<Meta>): (pieces: seq<string>)
    ensures |pieces| == |docs|
  {
    seq(|docs|, i requires 0 <= i < |docs| => ContextPiece(SourceLabel(metas, i), docs[i]))
  }

  /** The loop that builds the context pieces; a document without metadata is labelled
      "unknown" instead of failing. */
  method BuildContextPieces(docs: seq<string>, metas: seq<Meta>) returns (pieces: seq<string>)
    ensures pieces == ContextPieces(docs, metas)
  {
    pieces := [];
    for i := 0 to |docs|
      invariant |pieces| == i
      invariant forall k :: 0 <= k < i ==> pieces[k] == ContextPiece(SourceLabel(metas, k), docs[k])
    {
      var src: Option<string> := if i < |metas| then MetaSource(metas[i]) else None;
      var name := if src.Some? && src.value != [] then src.value else "unknown";
      pieces := pieces + [ContextPiece(name, docs[i])];
    }
  }

  const ContextSeparator: string := "\n---\n"

  /** The prompt handed to the language model: an instruction, the context, the question and a
      closing request, in that order. */
  function Prompt(context: string, q: string): string {
    PromptIntro + context + PromptQuestion + q + PromptClosing
  }

  const PromptIntro: string :=
    "You are an assistant. Use the following context to answer the user's question.\n\nCONTEXT:\n"
  const PromptQuestion: string := "\n\nQUESTION:\n"
  const PromptClosing: string :=
    "\n\nPlease provide a helpful answer and cite the relevant context sources in-line."

  /** The list comprehension building "sources": it indexes ids, metas and distances by the
      position of each document, so a shorter list raises IndexError. */
  function Sources(r: Retrieved): (res: Result<seq<SourceRef>, HttpError>)
    ensures res.Err? <==>
      |r.ids| < |r.documents| || |r.metadatas| < |r.documents| || |r.distances| < |r.documents|
    ensures res.Err? ==> res.error == InternalError
    ensures res.Ok? ==> |res.value| == |r.documents|
  {
    var n := |r.documents|;
    if |r.ids| < n || |r.metadatas| < n || |r.distances| < n then Err(InternalError)
    else Ok(seq(n, i requires 0 <= i < n => SourceRef(r.ids[i], MetaSource(r.metadatas[i]), r.distances[i], r.documents[i])))
  }

  /** The route. */
  method Query(q: string, k: int, embed: string -> Result<Vector, string>,
               search: (Vector, int) -> Result<Retrieved, string>, generate: string -> Result<string, string>)
    returns (reply: Result<Answer, HttpError>)
    ensures IsBlank(q) ==> reply == Err(HttpError(400, "query cannot be empty"))
    ensures !IsBlank(q) && embed(q).Err? ==> reply == Err(HttpError(500, "Ollama embed error: " + embed(q).error))
    ensures !IsBlank(q) && embed(q).Ok? && search(embed(q).value, k).Err? ==> reply == Err(InternalError)
    ensures !IsBlank(q) && embed(q).Ok? && search(embed(q).value, k).Ok? ==>
      var r := search(embed(q).value, k).value;
      var prompt := Prompt(Join(ContextPieces(r.documents, r.metadatas), ContextSeparator), q);
      reply == (if generate(prompt).Err? then Err(HttpError(500, "Ollama generate error: " + generate(prompt).error))
                else if Sources(r).Err? then Err(InternalError)
                else Ok(Answer(generate(prompt).value, Sources(r).value)))
  {
    if q == [] || Trim(q, IsPyWhitespace) == [] {
      return Err(HttpError(400, "query cannot be empty"));
    }
    var qEmbed := embed(q);
    if qEmbed.Err? {
      return Err(HttpError(500, "Ollama embed error: " + qEmbed.error));
    }
    var results := search(qEmbed.value, k);
    if results.Err? {
      return Err(InternalError);
    }
    var r := results.value;
    var pieces := BuildContextPieces(r.documents, r.metadatas);
    var context := Join(pieces, ContextSeparator);
    var prompt := Prompt(context, q);
    var answer := generate(prompt);
    if answer.Err? {
      return Err(HttpError(500, "Ollama generate error: " + answer.error));
    }
    var sources := Sources(r);
    if sources.Err? {
      return Err(InternalError);
    }
    reply := Ok(Answer(answer.value, sources.value));
  }

  // ----- What the prompt and the answer contain -----

  /** x occurs in s at offset k. */
  predicate OccursAt(x: string, s: string, k: nat) {
    k + |x| <= |s| && s[k..k + |x|] == x
  }

  lemma OccursInLeft(x: string, a: string, b: string, k: nat)
    requires OccursAt(x, a, k)
    ensures OccursAt(x, a + b, k)
  {
    assert (a + b)[k..k + |x|] == a[k..k + |x|];
  }

  lemma OccursInRight(x: string, a: string, b: string, k: nat)
    requires OccursAt(x, b, k)
    ensures OccursAt(x, a + b, |a| + k)
  {
    assert (a + b)[|a| + k..|a| + k + |x|] == b[k..k + |x|];
  }

  /** Each part of a join occurs in it. */
  lemma {:induction false} JoinHas(parts: seq<string>, sep: string, i: nat) returns (k: nat)
    requires i < |parts|
    ensures OccursAt(parts[i], Join(parts, sep), k)
  {
    if |parts| == 1 {
      k := 0;
      assert Join(parts, sep)[0..|parts[0]|] == parts[0];
    } else {
      var rest := Join(parts[1..], sep);
      assert Join(parts, sep) == parts[0] + sep + rest;
      if i == 0 {
        k := 0;
        assert OccursAt(parts[0], parts[0], 0);
        OccursInLeft(parts[0], parts[0], sep + rest, 0);
        assert parts[0] + sep + rest == parts[0] + (sep + rest);
      } else {
        var k1 := JoinHas(parts[1..], sep, i - 1);
        OccursInRight(parts[i], parts[0] + sep, rest, k1);
        k := |parts[0] + sep| + k1;
      }
    }
  }

  lemma OccursAtEnd(a: string, x: string)
    ensures OccursAt(x, a + x, |a|)
  {
    assert (a + x)[|a|..|a| + |x|] == x;
  }

  /** The question occurs in the prompt. */
  lemma PromptHasQuestion(context: string, q: string) returns (k: nat)
    ensures OccursAt(q, Prompt(context, q), k)
  {
    var head := PromptIntro + context + PromptQuestion;
    OccursAtEnd(head, q);
    OccursInLeft(q, head + q, PromptClosing, |head|);
    k := |head|;
  }

  /** The context occurs in the prompt. */
  lemma PromptHasContext(context: string, q: string) returns (k: nat)
    ensures OccursAt(context, Prompt(context, q), k)
  {
    k := |PromptIntro|;
    OccursAtEnd(PromptIntro, context);
    OccursInLeft(context, PromptIntro + context, PromptQuestion, k);
    OccursInLeft(context, PromptIntro + context + PromptQuestion, q, k);
    OccursInLeft(context, PromptIntro + context + PromptQuestion + q, PromptClosing, k);
  }

  lemma OccursTrans(x: string, y: string, s: string, i: nat, j: nat)
    requires OccursAt(x, y, i) && OccursAt(y, s, j)
    ensures OccursAt(x, s, j + i)
  {
    forall m | 0 <= m < |x| ensures s[j + i + m] == x[m] {
      assert y[i..i + |x|][m] == y[i + m];
      assert s[j..j + |y|][i + m] == s[j + i + m];
    }
  }

  /** Each of the pieces joined into the context occurs in the prompt. */
  lemma PromptHasPiece(pieces: seq<string>, q: string, i: nat) returns (k: nat)
    requires i < |pieces|
    ensures OccursAt(pieces[i], Prompt(Join(pieces, ContextSeparator), q), k)
  {
    var context := Join(pieces, ContextSeparator);
    var k1 := JoinHas(pieces, ContextSeparator, i);
    var k2 := PromptHasContext(context, q);
    OccursTrans(pieces[i], context, Prompt(context, q), k1, k2);
    k := k2 + k1;
  }

  /** Every retrieved document reaches the language model, under the label of its source. */
  lemma PromptHasDocument(docs: seq<string>, metas: seq<Meta>, q: string, i: nat) returns (k: nat)
    requires i < |docs|
    ensures OccursAt(ContextPiece(SourceLabel(metas, i), docs[i]),
                     Prompt(Join(ContextPieces(docs, metas), ContextSeparator), q), k)
  {
    var pieces := ContextPieces(docs, metas);
    assert pieces[i] == ContextPiece(SourceLabel(metas, i), docs[i]);
    k := PromptHasPiece(pieces, q, i);
  }

  /** The sources returned follow the documents one to one, and the label each document carries
      in the prompt is the source reported for it, or "unknown" when it has none. */
  lemma SourcesMatchContext(r: Retrieved, i: nat)
    requires Sources(r).Ok? && i < |r.documents|
    ensures var s := Sources(r).value[i];
      && s.text == r.documents[i] && s.id == r.ids[i] && s.distance == r.distances[i]
      && SourceLabel(r.metadatas, i) == (if s.source.Some? && s.source.value != [] then s.source.value else "unknown")
  {
  }
}
