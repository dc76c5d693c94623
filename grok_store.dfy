/**
 * The Grokker knowledge base (ai-agents/api.go): a document list and a
 * chunk list kept in step by mark, reconcile and sweep. UpdateDocument marks
 * a document's chunks stale, SetChunk revives or appends each chunk of the
 * document's current text, and GC drops whatever is still stale.
 *
 * The database is a class whose fields the operations update in place; the
 * chunks are values, so the source's updates through chunk pointers become
 * element updates of `chunks`, and the `newChunks` pointers become indices.
 * Document contents are a map from RelPath to text; the tokenizer, the hash,
 * the embedding provider and the path functions are parameters.
 */
module GrokStore {
  import opened Wrappers
  import opened GrokChunks
  import GrokEmbed
  import GrokVersion

  /** The embedding token limit the Grokker is set up with; it also bounds chunk splitting. */
  const EmbeddingTokenLimit: int := 8192

  /** The assertion or runtime check that stops an operation. */
  datatype Crash =
    | SplitPanics(reason: string)
    | EmbedAssertion(assertion: GrokEmbed.Assertion)
    | ChunkOfOtherDocument
    | ChunkTextEmpty
    | ChunkHasEmbedding
    | ChunkIsStale
    | ChunkHashEmpty
    | PatchNotUpgraded
    | StackOverflow

  /**
   * How an operation ends: a value, a returned error, a crash, or a loop
   * that is still running when its fuel bound runs out.
   */
  datatype Outcome<+T> = Done(value: T) | Failed(error: string) | Crashes(crash: Crash) | Hangs

  /** The chunk belongs to the document with this RelPath. */
  predicate OwnedBy(c: Chunk, relPath: string)
  {
    c.document.Some? && c.document.value.relPath == relPath
  }

  /** Two chunks are the same database entry: same hash, same document RelPath. */
  predicate SameChunk(c: Chunk, d: Chunk)
  {
    c.hash == d.hash && c.document.Some? && d.document.Some? && c.document.value.relPath == d.document.value.relPath
  }

  /** Every chunk has a document (the source dereferences it). */
  predicate HasDocuments(cs: seq<Chunk>)
  {
    forall k :: 0 <= k < |cs| ==> cs[k].document.Some?
  }

  // ---------------------------------------------------------------- mark

  /** The chunks with those of the document marked stale. */
  function Marked(cs: seq<Chunk>, relPath: string): (r: seq<Chunk>)
    ensures |r| == |cs|
    ensures forall k :: 0 <= k < |cs| ==> r[k].stale == (cs[k].stale || OwnedBy(cs[k], relPath))
    ensures forall k :: 0 <= k < |cs| ==> r[k].(stale := cs[k].stale) == cs[k]
  {
    seq(|cs|, k requires 0 <= k < |cs| => if OwnedBy(cs[k], relPath) then cs[k].(stale := true) else cs[k])
  }

  // ---------------------------------------------------------------- sweep

  /** The chunks that are not stale, in their original order. */
  function Collected(cs: seq<Chunk>): (r: seq<Chunk>)
    ensures forall c :: c in r <==> c in cs && !c.stale
    decreases |cs|
  {
    if cs == [] then [] else (if cs[0].stale then [] else [cs[0]]) + Collected(cs[1..])
  }

  /** Collecting distributes over concatenation: the relative order of the kept chunks is the original one. */
  lemma {:induction false} CollectedConcat(a: seq<Chunk>, b: seq<Chunk>)
    ensures Collected(a + b) == Collected(a) + Collected(b)
    decreases |a|
  {
    if a == [] {
      assert a + b == b;
    } else {
      assert (a + b)[1..] == a[1..] + b;
      CollectedConcat(a[1..], b);
    }
  }

  lemma CollectedSnoc(cs: seq<Chunk>, k: nat)
    requires k < |cs|
    ensures Collected(cs[..k + 1]) == Collected(cs[..k]) + (if cs[k].stale then [] else [cs[k]])
  {
    assert cs[..k + 1] == cs[..k] + [cs[k]];
    CollectedConcat(cs[..k], [cs[k]]);
  }

  /** Chunks none of which is stale are kept whole. */
  lemma {:induction false} CollectedFresh(cs: seq<Chunk>)
    requires forall k :: 0 <= k < |cs| ==> !cs[k].stale
    ensures Collected(cs) == cs
    decreases |cs|
  {
    if cs != [] {
      CollectedFresh(cs[1..]);
    }
  }

  /** A second GC removes nothing. */
  lemma CollectedIdempotent(cs: seq<Chunk>)
    ensures Collected(Collected(cs)) == Collected(cs)
  {
    var r := Collected(cs);
    assert forall k :: 0 <= k < |r| ==> r[k] in r;
    CollectedFresh(r);
  }

  // ---------------------------------------------------------------- reconcile

  /** Some chunk is the same database entry as c. */
  predicate Known(cs: seq<Chunk>, c: Chunk)
  {
    exists k :: 0 <= k < |cs| && SameChunk(cs[k], c)
  }

  /** Every entry the same as c takes c's offset and length and is no longer stale. */
  function Refreshed(cs: seq<Chunk>, c: Chunk): (r: seq<Chunk>)
    ensures |r| == |cs|
  {
    seq(|cs|, k requires 0 <= k < |cs| =>
      if SameChunk(cs[k], c) then cs[k].(offset := c.offset, length := c.length, stale := false) else cs[k])
  }

  /** The chunks after SetChunk(c): the known entries refreshed, or c appended, not stale. */
  function WithChunk(cs: seq<Chunk>, c: Chunk): seq<Chunk>
  {
    if Known(cs, c) then Refreshed(cs, c) else cs + [c.(stale := false)]
  }

  /**
   * After SetChunk the chunk is present, not stale, with the new offset and
   * length; the list grows by one exactly when the chunk was unknown, and
   * then ends with it; entries of other hashes or documents are untouched,
   * and a refreshed entry keeps its hash, document, text and embedding.
   */
  lemma WithChunkFacts(cs: seq<Chunk>, c: Chunk)
    requires c.document.Some?
    ensures var r := WithChunk(cs, c);
      && (exists k :: 0 <= k < |r| && SameChunk(r[k], c) && r[k].offset == c.offset && r[k].length == c.length && !r[k].stale)
      && |r| == |cs| + (if Known(cs, c) then 0 else 1)
      && (!Known(cs, c) ==> r[|cs|] == c.(stale := false))
      && (forall k :: 0 <= k < |cs| && !SameChunk(cs[k], c) ==> r[k] == cs[k])
      && (forall k :: 0 <= k < |cs| && SameChunk(cs[k], c) ==>
            r[k].hash == cs[k].hash && r[k].document == cs[k].document
            && r[k].text == cs[k].text && r[k].embedding == cs[k].embedding)
  {
    var r := WithChunk(cs, c);
    if Known(cs, c) {
      var k :| 0 <= k < |cs| && SameChunk(cs[k], c);
      assert SameChunk(r[k], c);
    } else {
      assert SameChunk(r[|cs|], c);
    }
  }

  /** SetChunk twice with the same chunk is SetChunk once. */
  lemma WithChunkIdempotent(cs: seq<Chunk>, c: Chunk)
    requires c.document.Some?
    ensures WithChunk(WithChunk(cs, c), c) == WithChunk(cs, c)
  {
    var r := WithChunk(cs, c);
    WithChunkFacts(cs, c);
    assert Known(r, c);
    var r2 := Refreshed(r, c);
    forall k | 0 <= k < |r|
      ensures r2[k] == r[k]
    {
      if SameChunk(r[k], c) {
        if k < |cs| {
          assert SameChunk(cs[k], c);
        }
      }
    }
  }

  /** SetChunk keeps every chunk's document present. */
  lemma WithChunkDocuments(cs: seq<Chunk>, c: Chunk)
    requires HasDocuments(cs) && c.document.Some?
    ensures HasDocuments(WithChunk(cs, c))
  {
  }

  /**
   * The reconcile loop of UpdateDocument: SetChunk for each chunk in turn,
   * with the indices of the chunks it appended.
   */
  function SetAll(cs: seq<Chunk>, leaves: seq<Chunk>): (seq<Chunk>, seq<nat>)
    decreases |leaves|
  {
    if leaves == [] then (cs, [])
    else
      var rest := SetAll(WithChunk(cs, leaves[0]), leaves[1..]);
      (rest.0, (if Known(cs, leaves[0]) then [] else [|cs|]) + rest.1)
  }

  lemma SetAllStep(cs: seq<Chunk>, leaves: seq<Chunk>, k: nat)
    requires k < |leaves|
    ensures SetAll(cs, leaves[k..])
      == var rest := SetAll(WithChunk(cs, leaves[k]), leaves[k + 1..]);
         (rest.0, (if Known(cs, leaves[k]) then [] else [|cs|]) + rest.1)
  {
    assert leaves[k..][1..] == leaves[k + 1..];
  }

  /**
   * Reconciling chunks of one document: the list only grows, chunks of other
   * documents keep their place and value, and the appended indices are
   * increasing, past the old end and within the new list.
   */
  lemma {:induction false} SetAllFrame(cs: seq<Chunk>, leaves: seq<Chunk>, relPath: string)
    requires forall k :: 0 <= k < |leaves| ==> OwnedBy(leaves[k], relPath)
    ensures var (r, idx) := SetAll(cs, leaves);
      && |cs| <= |r|
      && (forall k :: 0 <= k < |cs| && !OwnedBy(cs[k], relPath) ==> r[k] == cs[k])
      && (forall k :: 0 <= k < |idx| ==> |cs| <= idx[k] < |r|)
      && (forall j, k :: 0 <= j < k < |idx| ==> idx[j] < idx[k])
    decreases |leaves|
  {
    if leaves != [] {
      var next := WithChunk(cs, leaves[0]);
      WithChunkFacts(cs, leaves[0]);
      SetAllFrame(next, leaves[1..], relPath);
      assert forall k :: 0 <= k < |cs| && !OwnedBy(cs[k], relPath) ==> !SameChunk(cs[k], leaves[0]);
    }
  }

  /** Reconciling chunks with documents keeps every chunk's document present. */
  lemma {:induction false} SetAllDocuments(cs: seq<Chunk>, leaves: seq<Chunk>)
    requires HasDocuments(cs) && forall k :: 0 <= k < |leaves| ==> leaves[k].document.Some?
    ensures HasDocuments(SetAll(cs, leaves).0)
    decreases |leaves|
  {
    if leaves != [] {
      WithChunkDocuments(cs, leaves[0]);
      SetAllDocuments(WithChunk(cs, leaves[0]), leaves[1..]);
    }
  }

  /** After k chunks are reconciled: the rest of the loop yields what SetAll yields from the start. */
  ghost predicate Reconciling(cs: seq<Chunk>, leaves: seq<Chunk>, current: seq<Chunk>, idx: seq<nat>, k: nat)
  {
    k <= |leaves| && SetAll(cs, leaves) == (SetAll(current, leaves[k..]).0, idx + SetAll(current, leaves[k..]).1)
  }

  lemma ReconcileStart(cs: seq<Chunk>, leaves: seq<Chunk>)
    ensures Reconciling(cs, leaves, cs, [], 0)
  {
    assert leaves[0..] == leaves;
    assert [] + SetAll(cs, leaves).1 == SetAll(cs, leaves).1;
  }

  lemma ReconcileStep(cs: seq<Chunk>, leaves: seq<Chunk>, before: seq<Chunk>, idx0: seq<nat>, k: nat, after: seq<Chunk>, idx: seq<nat>)
    requires k < |leaves| && Reconciling(cs, leaves, before, idx0, k)
    requires after == WithChunk(before, leaves[k])
    requires idx == idx0 + (if Known(before, leaves[k]) then [] else [|before|])
    ensures Reconciling(cs, leaves, after, idx, k + 1)
  {
    SetAllStep(before, leaves, k);
    var added: seq<nat> := if Known(before, leaves[k]) then [] else [|before|];
    ConcatShift(SetAll(cs, leaves), SetAll(before, leaves[k..]), SetAll(after, leaves[k + 1..]), idx0, added);
  }

  lemma ConcatShift<T, U>(whole: (T, seq<U>), mid: (T, seq<U>), rest: (T, seq<U>), prefix: seq<U>, added: seq<U>)
    requires whole == (mid.0, prefix + mid.1) && mid == (rest.0, added + rest.1)
    ensures whole == (rest.0, (prefix + added) + rest.1)
  {
    assert prefix + (added + rest.1) == (prefix + added) + rest.1;
  }

  lemma ReconcileEnd(cs: seq<Chunk>, leaves: seq<Chunk>, current: seq<Chunk>, idx: seq<nat>)
    requires Reconciling(cs, leaves, current, idx, |leaves|)
    ensures SetAll(cs, leaves) == (current, idx)
  {
    assert leaves[|leaves|..] == [];
    assert idx + [] == idx;
  }

  // ---------------------------------------------------------------- the new chunks

  /** The first of the source's assertions about a new chunk that fails, if one does. */
  function Problem(c: Chunk, relPath: string): Option<Crash>
  {
    if !OwnedBy(c, relPath) then Some(ChunkOfOtherDocument)
    else if c.text == "" then Some(ChunkTextEmpty)
    else if c.embedding.Some? then Some(ChunkHasEmbedding)
    else if c.stale then Some(ChunkIsStale)
    else if c.hash == "" then Some(ChunkHashEmpty)
    else None
  }

  /** Every index lies within the list. */
  predicate IndicesIn(idx: seq<nat>, n: nat)
  {
    forall k :: 0 <= k < |idx| ==> idx[k] < n
  }

  /**
   * The texts UpdateDocument sends to the embedding provider: the new chunks'
   * texts with their headers, in order, each new chunk checked first.
   */
  function NewTexts(cs: seq<Chunk>, idx: seq<nat>, relPath: string, files: map<string, string>): (r: Outcome<seq<string>>)
    requires IndicesIn(idx, |cs|)
    ensures r.Done? ==> |r.value| == |idx|
    decreases |idx|
  {
    if idx == [] then Done([])
    else
      var n := |idx| - 1;
      match NewTexts(cs, idx[..n], relPath, files)
      case Done(ts) =>
        (var c := cs[idx[n]];
         match Problem(c, relPath)
         case Some(p) => Crashes(p)
         case None => Done(ts + [ChunkText(c, true, files).value]))
      case Failed(e) => Failed(e)
      case Crashes(p) => Crashes(p)
      case Hangs => Hangs
  }

  /** Once the new chunks' texts stop at an outcome that is not Done, later chunks do not change it. */
  lemma {:induction false} NewTextsStuck(cs: seq<Chunk>, idx: seq<nat>, j: nat, relPath: string, files: map<string, string>)
    requires j <= |idx| && IndicesIn(idx, |cs|)
    requires !NewTexts(cs, idx[..j], relPath, files).Done?
    ensures NewTexts(cs, idx, relPath, files) == NewTexts(cs, idx[..j], relPath, files)
    decreases |idx| - j
  {
    if j < |idx| {
      var m := |idx| - 1;
      assert IndicesIn(idx[..m], |cs|);
      assert idx[..m][..j] == idx[..j];
      NewTextsStuck(cs, idx[..m], j, relPath, files);
    } else {
      assert idx[..j] == idx;
    }
  }

  /** The new chunks with their embeddings set, in order. */
  function Attached(cs: seq<Chunk>, idx: seq<nat>, vs: seq<Vector>): (r: seq<Chunk>)
    requires |idx| == |vs| && IndicesIn(idx, |cs|)
    ensures |r| == |cs|
    decreases |idx|
  {
    if idx == [] then cs
    else
      var n := |idx| - 1;
      var r := Attached(cs, idx[..n], vs[..n]);
      r[idx[n] := r[idx[n]].(embedding := Some(vs[n]))]
  }

  /** Setting embeddings changes nothing else, and no chunk outside the indices. */
  lemma {:induction false} AttachedFrame(cs: seq<Chunk>, idx: seq<nat>, vs: seq<Vector>)
    requires |idx| == |vs| && IndicesIn(idx, |cs|)
    ensures var r := Attached(cs, idx, vs);
      && (forall k :: 0 <= k < |cs| ==> r[k].(embedding := cs[k].embedding) == cs[k])
      && (forall k :: 0 <= k < |cs| && k !in idx ==> r[k] == cs[k])
    decreases |idx|
  {
    if idx != [] {
      var n := |idx| - 1;
      assert IndicesIn(idx[..n], |cs|);
      AttachedFrame(cs, idx[..n], vs[..n]);
      assert forall k :: k in idx[..n] ==> k in idx;
    }
  }

  /** Each new chunk carries the embedding computed for its text. */
  lemma {:induction false} AttachedEmbeddings(cs: seq<Chunk>, idx: seq<nat>, vs: seq<Vector>)
    requires |idx| == |vs| && IndicesIn(idx, |cs|)
    requires forall j, k :: 0 <= j < k < |idx| ==> idx[j] < idx[k]
    ensures forall k :: 0 <= k < |idx| ==> Attached(cs, idx, vs)[idx[k]].embedding == Some(vs[k])
    decreases |idx|
  {
    if idx != [] {
      var n := |idx| - 1;
      assert IndicesIn(idx[..n], |cs|);
      AttachedEmbeddings(cs, idx[..n], vs[..n]);
    }
  }

  // ---------------------------------------------------------------- UpdateDocument

  /** The error of reading a document whose file is missing. */
  function NotReadable(relPath: string): string
  {
    "open " + relPath + ": no such file or directory"
  }

  /**
   * UpdateDocument as a function of the chunk list: the chunks afterwards and
   * the outcome. Whatever happened before a failure stays: the stale marks,
   * and the chunks reconciled so far.
   */
  function Updated(cs: seq<Chunk>, doc: Document, files: map<string, string>, env: Env, provider: GrokEmbed.Provider)
    : (seq<Chunk>, Outcome<bool>)
  {
    var marked := Marked(cs, doc.relPath);
    if doc.relPath !in files then (marked, Failed(NotReadable(doc.relPath)))
    else
      var split := ChunksOf(Some(doc), files[doc.relPath], EmbeddingTokenLimit, env);
      ChunksOfTile(Some(doc), files[doc.relPath], EmbeddingTokenLimit, env);
      match split
      case Diverges => (marked, Crashes(StackOverflow))
      case Panics(m) => (marked, Crashes(SplitPanics(m)))
      case Pieces(leaves) =>
        var (merged, idx) := SetAll(marked, leaves);
        SetAllFrame(marked, leaves, doc.relPath);
        match NewTexts(merged, idx, doc.relPath, files)
        case Failed(e) => (merged, Failed(e))
        case Crashes(p) => (merged, Crashes(p))
        case Hangs => (merged, Hangs)
        case Done(texts) =>
          match GrokEmbed.Embeddings(texts, env.tokens, EmbeddingTokenLimit, provider)
          case Failed(e) => (merged, Failed(e))
          case Crashes(a) => (merged, Crashes(EmbedAssertion(a)))
          case Done(vs) => (Attached(merged, idx, vs), Done(|idx| > 0))
  }

  /**
   * UpdateDocument touches only the document's chunks: every chunk of
   * another document keeps its place and its value, whatever the outcome.
   */
  lemma UpdatedOnlyThisDocument(cs: seq<Chunk>, doc: Document, files: map<string, string>, env: Env, provider: GrokEmbed.Provider)
    ensures var (r, _) := Updated(cs, doc, files, env, provider);
      |cs| <= |r| && forall k :: 0 <= k < |cs| && !OwnedBy(cs[k], doc.relPath) ==> r[k] == cs[k]
  {
    var marked := Marked(cs, doc.relPath);
    if doc.relPath in files {
      var split := ChunksOf(Some(doc), files[doc.relPath], EmbeddingTokenLimit, env);
      ChunksOfTile(Some(doc), files[doc.relPath], EmbeddingTokenLimit, env);
      if split.Pieces? {
        var (merged, idx) := SetAll(marked, split.chunks);
        SetAllFrame(marked, split.chunks, doc.relPath);
        var texts := NewTexts(merged, idx, doc.relPath, files);
        if texts.Done? {
          var em := GrokEmbed.Embeddings(texts.value, env.tokens, EmbeddingTokenLimit, provider);
          if em.Done? {
            AttachedFrame(merged, idx, em.value);
            assert forall k :: 0 <= k < |cs| ==> k !in idx;
          }
        }
      }
    }
  }

  /** UpdateDocument marks stale exactly the document's chunks, and no other chunk changes at that step. */
  lemma MarkedExactly(cs: seq<Chunk>, relPath: string, k: nat)
    requires k < |cs|
    ensures Marked(cs, relPath)[k].stale <==> cs[k].stale || OwnedBy(cs[k], relPath)
    ensures !OwnedBy(cs[k], relPath) ==> Marked(cs, relPath)[k] == cs[k]
  {
  }

  /** A successful UpdateDocument stores each new chunk with its embedding. */
  lemma UpdatedEmbedsNewChunks(cs: seq<Chunk>, doc: Document, files: map<string, string>, env: Env, provider: GrokEmbed.Provider)
    requires doc.relPath in files
    requires ChunksOf(Some(doc), files[doc.relPath], EmbeddingTokenLimit, env).Pieces?
    ensures var leaves := ChunksOf(Some(doc), files[doc.relPath], EmbeddingTokenLimit, env).chunks;
      var (merged, idx) := SetAll(Marked(cs, doc.relPath), leaves);
      var (r, out) := Updated(cs, doc, files, env, provider);
      out.Done? ==> (out.value <==> idx != []) && forall k :: 0 <= k < |idx| ==> idx[k] < |r| && r[idx[k]].embedding.Some?
  {
    var marked := Marked(cs, doc.relPath);
    var leaves := ChunksOf(Some(doc), files[doc.relPath], EmbeddingTokenLimit, env).chunks;
    ChunksOfTile(Some(doc), files[doc.relPath], EmbeddingTokenLimit, env);
    var (merged, idx) := SetAll(marked, leaves);
    SetAllFrame(marked, leaves, doc.relPath);
    var texts := NewTexts(merged, idx, doc.relPath, files);
    if texts.Done? {
      var em := GrokEmbed.Embeddings(texts.value, env.tokens, EmbeddingTokenLimit, provider);
      if em.Done? {
        AttachedEmbeddings(merged, idx, em.value);
      }
    }
  }

  /** UpdateDocument keeps every chunk's document present. */
  lemma UpdatedDocuments(cs: seq<Chunk>, doc: Document, files: map<string, string>, env: Env, provider: GrokEmbed.Provider)
    requires HasDocuments(cs)
    ensures HasDocuments(Updated(cs, doc, files, env, provider).0)
  {
    var marked := Marked(cs, doc.relPath);
    if doc.relPath in files {
      var split := ChunksOf(Some(doc), files[doc.relPath], EmbeddingTokenLimit, env);
      ChunksOfTile(Some(doc), files[doc.relPath], EmbeddingTokenLimit, env);
      if split.Pieces? {
        SetAllDocuments(marked, split.chunks);
        var (merged, idx) := SetAll(marked, split.chunks);
        SetAllFrame(marked, split.chunks, doc.relPath);
        var texts := NewTexts(merged, idx, doc.relPath, files);
        if texts.Done? {
          var em := GrokEmbed.Embeddings(texts.value, env.tokens, EmbeddingTokenLimit, provider);
          if em.Done? {
            AttachedFrame(merged, idx, em.value);
          }
        }
      }
    }
  }

  // ---------------------------------------------------------------- what reconciling makes of the leaves

  /** `d` is still entry `c`: same document, hash, text and embedding, and not stale unless `c` was. */
  predicate Keeps(c: Chunk, d: Chunk)
  {
    d.document == c.document && d.hash == c.hash && d.text == c.text && d.embedding == c.embedding && (!c.stale ==> !d.stale)
  }

  /** Every entry of `a` is kept, at its index, in the list `b`, which may be longer. */
  predicate KeepsAll(a: seq<Chunk>, b: seq<Chunk>)
  {
    |a| <= |b| && forall k :: 0 <= k < |a| ==> Keeps(a[k], b[k])
  }

  /** Entry `c` carries leaf `l`'s document, hash, text and embedding, and is not stale. */
  predicate Revives(c: Chunk, l: Chunk)
  {
    c.document == l.document && c.hash == l.hash && c.text == l.text && c.embedding == l.embedding && !c.stale
  }

  lemma WithChunkKeeps(cs: seq<Chunk>, c: Chunk)
    ensures KeepsAll(cs, WithChunk(cs, c))
  {
  }

  /** Reconciling keeps every entry already in the list. */
  lemma {:induction false} SetAllKeeps(cs: seq<Chunk>, leaves: seq<Chunk>)
    ensures KeepsAll(cs, SetAll(cs, leaves).0)
    decreases |leaves|
  {
    if leaves != [] {
      var next := WithChunk(cs, leaves[0]);
      WithChunkKeeps(cs, leaves[0]);
      SetAllKeeps(next, leaves[1..]);
    }
  }

  /** A chunk known to a list is known to any list that keeps it. */
  lemma KnownKept(a: seq<Chunk>, b: seq<Chunk>, c: Chunk)
    requires |a| <= |b| && forall k :: 0 <= k < |a| ==> b[k].hash == a[k].hash && b[k].document == a[k].document
    requires Known(a, c)
    ensures Known(b, c)
  {
    var k :| 0 <= k < |a| && SameChunk(a[k], c);
    assert SameChunk(b[k], c);
  }

  /** Each index in `idx` holds an entry of `r` that revives one of the leaves. */
  predicate RevivedAt(r: seq<Chunk>, idx: seq<nat>, leaves: seq<Chunk>)
  {
    forall k :: 0 <= k < |idx| ==> idx[k] < |r| && exists j :: 0 <= j < |leaves| && Revives(r[idx[k]], leaves[j])
  }

  /** Each appended index holds an entry that revives one of the leaves. */
  lemma {:induction false} SetAllNew(cs: seq<Chunk>, leaves: seq<Chunk>)
    ensures RevivedAt(SetAll(cs, leaves).0, SetAll(cs, leaves).1, leaves)
    decreases |leaves|
  {
    if leaves != [] {
      var next := WithChunk(cs, leaves[0]);
      var r := SetAll(cs, leaves).0;
      var idx := SetAll(cs, leaves).1;
      var rest := SetAll(next, leaves[1..]);
      SetAllNew(next, leaves[1..]);
      SetAllKeeps(next, leaves[1..]);
      var added: seq<nat> := if Known(cs, leaves[0]) then [] else [|cs|];
      assert idx == added + rest.1 && r == rest.0;
      forall k | 0 <= k < |idx|
        ensures idx[k] < |r| && exists j :: 0 <= j < |leaves| && Revives(r[idx[k]], leaves[j])
      {
        if k < |added| {
          assert idx[k] == |cs| && next[|cs|] == leaves[0].(stale := false);
          assert Revives(r[idx[k]], leaves[0]);
        } else {
          var k' := k - |added|;
          assert idx[k] == rest.1[k'];
          var j :| 0 <= j < |leaves[1..]| && Revives(r[rest.1[k']], leaves[1..][j]);
          assert Revives(r[idx[k]], leaves[j + 1]);
        }
      }
    }
  }

  /** After reconciling, every leaf is known to the list. */
  lemma {:induction false} SetAllKnows(cs: seq<Chunk>, leaves: seq<Chunk>)
    requires forall j :: 0 <= j < |leaves| ==> leaves[j].document.Some?
    ensures forall j :: 0 <= j < |leaves| ==> Known(SetAll(cs, leaves).0, leaves[j])
    decreases |leaves|
  {
    if leaves != [] {
      var next := WithChunk(cs, leaves[0]);
      var r := SetAll(cs, leaves).0;
      WithChunkFacts(cs, leaves[0]);
      SetAllKeeps(next, leaves[1..]);
      KnownKept(next, r, leaves[0]);
      SetAllKnows(next, leaves[1..]);
      assert forall j :: 1 <= j < |leaves| ==> leaves[j] == leaves[1..][j - 1];
    }
  }

  /** Reconciling leaves the list already knows appends nothing. */
  lemma {:induction false} SetAllKnownAppendsNothing(cs: seq<Chunk>, leaves: seq<Chunk>)
    requires forall j :: 0 <= j < |leaves| ==> Known(cs, leaves[j])
    ensures SetAll(cs, leaves).1 == []
    decreases |leaves|
  {
    if leaves != [] {
      var next := WithChunk(cs, leaves[0]);
      WithChunkKeeps(cs, leaves[0]);
      forall j | 0 <= j < |leaves[1..]|
        ensures Known(next, leaves[1..][j])
      {
        KnownKept(cs, next, leaves[j + 1]);
      }
      SetAllKnownAppendsNothing(next, leaves[1..]);
    }
  }

  /** Each new chunk passes the chunk checks, except possibly the empty-text one; all of them when no leaf is empty. */
  lemma {:induction false} NewTextsChecked(cs: seq<Chunk>, idx: seq<nat>, relPath: string, files: map<string, string>)
    requires IndicesIn(idx, |cs|)
    requires forall k :: 0 <= k < |idx| ==> Problem(cs[idx[k]], relPath) == None || Problem(cs[idx[k]], relPath) == Some(ChunkTextEmpty)
    ensures var r := NewTexts(cs, idx, relPath, files); r.Done? || r == Crashes(ChunkTextEmpty)
    ensures (forall k :: 0 <= k < |idx| ==> Problem(cs[idx[k]], relPath) == None) ==> NewTexts(cs, idx, relPath, files).Done?
    decreases |idx|
  {
    if idx != [] {
      var n := |idx| - 1;
      assert IndicesIn(idx[..n], |cs|);
      assert forall k :: 0 <= k < n ==> idx[..n][k] == idx[k];
      NewTextsChecked(cs, idx[..n], relPath, files);
    }
  }

  /**
   * The chunks UpdateDocument appends are the leaves as NewChunk made them:
   * each belongs to the document, has no embedding, is not stale and has a
   * 64-digit hash, so of the checks on a new chunk only the empty-text one
   * can fail, and none fails when no leaf is empty.
   */
  lemma UpdatedNewChunksChecked(cs: seq<Chunk>, doc: Document, files: map<string, string>, env: Env)
    requires HashIsHexSha256(env) && DigestsAre32Bytes(env)
    requires doc.relPath in files
    requires ChunksOf(Some(doc), files[doc.relPath], EmbeddingTokenLimit, env).Pieces?
    ensures var leaves := ChunksOf(Some(doc), files[doc.relPath], EmbeddingTokenLimit, env).chunks;
      var (merged, idx) := SetAll(Marked(cs, doc.relPath), leaves);
      && (forall k :: 0 <= k < |idx| ==>
            idx[k] < |merged| && (Problem(merged[idx[k]], doc.relPath) == None || Problem(merged[idx[k]], doc.relPath) == Some(ChunkTextEmpty)))
      && (NonEmptyTexts(leaves) ==> forall k :: 0 <= k < |idx| ==> Problem(merged[idx[k]], doc.relPath) == None)
  {
    var txt := files[doc.relPath];
    var leaves := ChunksOf(Some(doc), txt, EmbeddingTokenLimit, env).chunks;
    ChunksOfTile(Some(doc), txt, EmbeddingTokenLimit, env);
    ChunksOfFresh(Some(doc), txt, EmbeddingTokenLimit, env);
    var (merged, idx) := SetAll(Marked(cs, doc.relPath), leaves);
    SetAllNew(Marked(cs, doc.relPath), leaves);
    forall k | 0 <= k < |idx|
      ensures Problem(merged[idx[k]], doc.relPath) == None || Problem(merged[idx[k]], doc.relPath) == Some(ChunkTextEmpty)
      ensures NonEmptyTexts(leaves) ==> Problem(merged[idx[k]], doc.relPath) == None
    {
      var j :| 0 <= j < |leaves| && Revives(merged[idx[k]], leaves[j]);
      var l := leaves[j];
      assert Fresh(l, env) && l.document == Some(doc);
      NewChunkHash(doc, l.offset, l.length, l.text, env);
    }
  }

  /**
   * How UpdateDocument can crash: a split panic, the stack overflow of a
   * split that recurses without end, an empty new chunk or an embedding
   * assertion, never the other checks on a new chunk. The stack overflows
   * exactly when the split recurses without end. With token counts bounded
   * by length and a file of at most 64 MiB, only the stack overflow and an
   * embedding assertion remain.
   */
  lemma UpdatedCrashes(cs: seq<Chunk>, doc: Document, files: map<string, string>, env: Env, provider: GrokEmbed.Provider)
    requires HashIsHexSha256(env) && DigestsAre32Bytes(env)
    ensures var out := Updated(cs, doc, files, env, provider).1;
      out.Crashes? ==> out.crash.SplitPanics? || out.crash == StackOverflow || out.crash == ChunkTextEmpty || out.crash.EmbedAssertion?
    ensures var out := Updated(cs, doc, files, env, provider).1;
      out == Crashes(StackOverflow) <==> doc.relPath in files && ChunksOf(Some(doc), files[doc.relPath], EmbeddingTokenLimit, env).Diverges?
    ensures var out := Updated(cs, doc, files, env, provider).1;
      TokensAtMostLength(env) && (doc.relPath in files ==> |files[doc.relPath]| <= EmbeddingTokenLimit * EmbeddingTokenLimit)
      ==> (out.Crashes? ==> out.crash == StackOverflow || out.crash.EmbedAssertion?)
  {
    if doc.relPath in files {
      var txt := files[doc.relPath];
      if TokensAtMostLength(env) && |txt| <= EmbeddingTokenLimit * EmbeddingTokenLimit {
        ChunksOfNonEmpty(Some(doc), txt, EmbeddingTokenLimit, env);
      }
      if ChunksOf(Some(doc), txt, EmbeddingTokenLimit, env).Pieces? {
        UpdatedLeavesCrashes(cs, doc, files, env, provider);
      }
    }
  }

  /** UpdatedCrashes once the document is split into leaves. */
  lemma UpdatedLeavesCrashes(cs: seq<Chunk>, doc: Document, files: map<string, string>, env: Env, provider: GrokEmbed.Provider)
    requires HashIsHexSha256(env) && DigestsAre32Bytes(env)
    requires doc.relPath in files
    requires ChunksOf(Some(doc), files[doc.relPath], EmbeddingTokenLimit, env).Pieces?
    ensures var leaves := ChunksOf(Some(doc), files[doc.relPath], EmbeddingTokenLimit, env).chunks;
      var out := Updated(cs, doc, files, env, provider).1;
      out.Crashes? ==> (out.crash == ChunkTextEmpty || out.crash.EmbedAssertion?) && (NonEmptyTexts(leaves) ==> out.crash.EmbedAssertion?)
  {
    var leaves := ChunksOf(Some(doc), files[doc.relPath], EmbeddingTokenLimit, env).chunks;
    ChunksOfTile(Some(doc), files[doc.relPath], EmbeddingTokenLimit, env);
    var marked := Marked(cs, doc.relPath);
    var (merged, idx) := SetAll(marked, leaves);
    SetAllFrame(marked, leaves, doc.relPath);
    UpdatedNewChunksChecked(cs, doc, files, env);
    NewTextsChecked(merged, idx, doc.relPath, files);
  }

  /**
   * Re-chunk stability: after a successful UpdateDocument, updating the
   * unchanged document again appends no chunk, sends nothing to whatever
   * provider is given, and reports no update.
   */
  lemma UpdatedStable(cs: seq<Chunk>, doc: Document, files: map<string, string>, env: Env,
                      provider: GrokEmbed.Provider, provider': GrokEmbed.Provider)
    requires Updated(cs, doc, files, env, provider).1.Done?
    ensures doc.relPath in files && ChunksOf(Some(doc), files[doc.relPath], EmbeddingTokenLimit, env).Pieces?
    ensures var r := Updated(cs, doc, files, env, provider).0;
      var leaves := ChunksOf(Some(doc), files[doc.relPath], EmbeddingTokenLimit, env).chunks;
      && SetAll(Marked(r, doc.relPath), leaves).1 == []
      && Updated(r, doc, files, env, provider') == (SetAll(Marked(r, doc.relPath), leaves).0, Done(false))
  {
    var txt := files[doc.relPath];
    var leaves := ChunksOf(Some(doc), txt, EmbeddingTokenLimit, env).chunks;
    ChunksOfTile(Some(doc), txt, EmbeddingTokenLimit, env);
    var marked := Marked(cs, doc.relPath);
    var (merged, idx) := SetAll(marked, leaves);
    SetAllFrame(marked, leaves, doc.relPath);
    SetAllKnows(marked, leaves);
    var texts := NewTexts(merged, idx, doc.relPath, files).value;
    var vs := GrokEmbed.Embeddings(texts, env.tokens, EmbeddingTokenLimit, provider).value;
    var r := Attached(merged, idx, vs);
    AttachedFrame(merged, idx, vs);
    var again := Marked(r, doc.relPath);
    forall j | 0 <= j < |leaves|
      ensures Known(again, leaves[j])
    {
      KnownKept(merged, r, leaves[j]);
      KnownKept(r, again, leaves[j]);
    }
    SetAllKnownAppendsNothing(again, leaves);
  }

  // ---------------------------------------------------------------- documents

  /** The documents after AddDocument: the document appended unless one with its RelPath is there. */
  function WithDocument(ds: seq<Document>, relPath: string): (r: seq<Document>)
  {
    if exists k :: 0 <= k < |ds| && ds[k].relPath == relPath then ds else ds + [Document("", relPath)]
  }

  /** Adding a document keeps one entry per RelPath: a second add changes nothing. */
  lemma WithDocumentIdempotent(ds: seq<Document>, relPath: string)
    ensures WithDocument(WithDocument(ds, relPath), relPath) == WithDocument(ds, relPath)
    ensures exists k :: 0 <= k < |WithDocument(ds, relPath)| && WithDocument(ds, relPath)[k].relPath == relPath
  {
    var r := WithDocument(ds, relPath);
    if !(exists k :: 0 <= k < |ds| && ds[k].relPath == relPath) {
      assert r[|ds|].relPath == relPath;
    }
  }

  /** The index of the first document matching, if any. */
  function FirstMatch(ds: seq<Document>, matches: Document -> bool): (r: Option<nat>)
    ensures r.Some? ==> r.value < |ds| && matches(ds[r.value]) && forall k :: 0 <= k < r.value ==> !matches(ds[k])
    ensures r.None? ==> forall k :: 0 <= k < |ds| ==> !matches(ds[k])
    decreases |ds|
  {
    if ds == [] then None
    else if matches(ds[0]) then Some(0)
    else match FirstMatch(ds[1..], matches)
      case None => None
      case Some(i) => Some(i + 1)
  }

  /** The documents after ForgetDocument: the first matching document removed, the rest in order. */
  function Forgotten(ds: seq<Document>, matches: Document -> bool): (r: seq<Document>)
    ensures match FirstMatch(ds, matches)
            case None => r == ds
            case Some(i) => r == ds[..i] + ds[i + 1..] && |r| == |ds| - 1
  {
    match FirstMatch(ds, matches)
    case None => ds
    case Some(i) => ds[..i] + ds[i + 1..]
  }

  /** The documents ForgetDocument removes: RelPath equal to the path, or absolute path equal to the absolute path. */
  function ForgetTest(path: string, absPath: string, absPathOf: Document -> string): Document -> bool
  {
    (d: Document) => d.relPath == path || absPathOf(d) == absPath
  }

  lemma ForgetAt(ds: seq<Document>, matches: Document -> bool, k: nat)
    requires k < |ds| && matches(ds[k]) && forall j :: 0 <= j < k ==> !matches(ds[j])
    ensures Forgotten(ds, matches) == ds[..k] + ds[k + 1..]
  {
    var f := FirstMatch(ds, matches);
    assert f.Some? && f.value == k;
  }

  lemma ForgetNone(ds: seq<Document>, matches: Document -> bool)
    requires forall j :: 0 <= j < |ds| ==> !matches(ds[j])
    ensures Forgotten(ds, matches) == ds
  {
  }

  // ---------------------------------------------------------------- SimilarChunks

  /** The tokens of a chunk's text with its header, as SimilarChunks counts them. */
  function ChunkTokens(c: Chunk, files: map<string, string>, env: Env): nat
  {
    match ChunkText(c, true, files)
    case Ok(t) => env.tokens(t)
    case Err(_) => 0
  }

  /** The token count of a list of chunks. */
  function Cost(cs: seq<Chunk>, files: map<string, string>, env: Env): nat
    decreases |cs|
  {
    if cs == [] then 0 else Cost(cs[..|cs| - 1], files, env) + ChunkTokens(cs[|cs| - 1], files, env)
  }

  /** A longer prefix never costs less. */
  lemma {:induction false} CostMonotone(cs: seq<Chunk>, m: nat, n: nat, files: map<string, string>, env: Env)
    requires m <= n <= |cs|
    ensures Cost(cs[..m], files, env) <= Cost(cs[..n], files, env)
    decreases n - m
  {
    if m < n {
      CostMonotone(cs, m, n - 1, files, env);
      assert cs[..n][..n - 1] == cs[..n - 1];
    }
  }

  /**
   * The budget loop of SimilarChunks from position i with `total` tokens
   * counted so far: the number of ranked chunks it keeps. ChunkText's error
   * is its Assert on a chunk with neither document nor text, and
   * SimilarChunks has no error result, so that case crashes.
   */
  function SelectFrom(ranked: seq<Chunk>, i: nat, total: int, limit: int, files: map<string, string>, env: Env): (r: Outcome<nat>)
    requires i <= |ranked|
    ensures r.Done? ==> i <= r.value <= |ranked|
    ensures !r.Done? ==> r == Crashes(ChunkTextEmpty)
    decreases |ranked| - i
  {
    if i == |ranked| then Done(i)
    else match ChunkText(ranked[i], true, files)
      case Err(_) => Crashes(ChunkTextEmpty)
      case Ok(t) =>
        if total + env.tokens(t) > limit then Done(i)
        else SelectFrom(ranked, i + 1, total + env.tokens(t), limit, files, env)
  }

  /** The chunks SimilarChunks returns, given the chunks ranked by similarity. */
  function Similar(ranked: seq<Chunk>, limit: int, files: map<string, string>, env: Env): Outcome<seq<Chunk>>
  {
    match SelectFrom(ranked, 0, 0, limit, files, env)
    case Done(n) => Done(ranked[..n])
    case Crashes(c) => Crashes(c)
  }

  /** The count n is where the budget runs out: the first n ranked chunks fit, the first n + 1 do not. */
  ghost predicate BudgetEnd(ranked: seq<Chunk>, n: nat, limit: int, files: map<string, string>, env: Env)
  {
    n <= |ranked|
    && (n == 0 || Cost(ranked[..n], files, env) <= limit)
    && (n == |ranked| || Cost(ranked[..n + 1], files, env) > limit)
  }

  lemma CostSnoc(ranked: seq<Chunk>, i: nat, files: map<string, string>, env: Env)
    requires i < |ranked|
    ensures Cost(ranked[..i + 1], files, env) == Cost(ranked[..i], files, env) + ChunkTokens(ranked[i], files, env)
  {
    assert ranked[..i + 1][..i] == ranked[..i];
  }

  lemma SelectStep(ranked: seq<Chunk>, i: nat, total: int, limit: int, files: map<string, string>, env: Env)
    requires i < |ranked| && ranked[i].document.Some?
    ensures var next := total + ChunkTokens(ranked[i], files, env);
      SelectFrom(ranked, i, total, limit, files, env)
      == if next > limit then Done(i) else SelectFrom(ranked, i + 1, next, limit, files, env)
  {
  }

  lemma {:induction false} SelectFromFacts(ranked: seq<Chunk>, i: nat, total: int, limit: int, files: map<string, string>, env: Env)
    requires i <= |ranked| && HasDocuments(ranked) && total == Cost(ranked[..i], files, env)
    requires i == 0 || total <= limit
    ensures SelectFrom(ranked, i, total, limit, files, env).Done?
    ensures BudgetEnd(ranked, SelectFrom(ranked, i, total, limit, files, env).value, limit, files, env)
    decreases |ranked| - i
  {
    if i < |ranked| {
      var next := total + ChunkTokens(ranked[i], files, env);
      CostSnoc(ranked, i, files, env);
      SelectStep(ranked, i, total, limit, files, env);
      if next <= limit {
        SelectFromFacts(ranked, i + 1, next, limit, files, env);
      }
    }
  }

  /** The budget loop crashes only on a ranked chunk with neither document nor text, at or after i. */
  lemma {:induction false} SelectFromCrashes(ranked: seq<Chunk>, i: nat, total: int, limit: int, files: map<string, string>, env: Env)
    requires i <= |ranked|
    ensures SelectFrom(ranked, i, total, limit, files, env).Crashes? ==>
              exists k :: i <= k < |ranked| && ranked[k].document.None? && ranked[k].text == ""
    decreases |ranked| - i
  {
    if i < |ranked| && ChunkText(ranked[i], true, files).Ok? {
      var t := ChunkText(ranked[i], true, files).value;
      if total + env.tokens(t) <= limit {
        SelectFromCrashes(ranked, i + 1, total + env.tokens(t), limit, files, env);
      }
    }
  }

  /** SimilarChunks crashes only when some ranked chunk has neither document nor text. */
  lemma SimilarCrashes(ranked: seq<Chunk>, limit: int, files: map<string, string>, env: Env)
    ensures Similar(ranked, limit, files, env).Crashes? ==>
              Similar(ranked, limit, files, env) == Crashes(ChunkTextEmpty)
              && exists k :: 0 <= k < |ranked| && ranked[k].document.None? && ranked[k].text == ""
  {
    SelectFromCrashes(ranked, 0, 0, limit, files, env);
  }

  /**
   * SimilarChunks keeps the longest prefix of the ranking within the token
   * budget: a non-empty prefix fits exactly when it is no longer than the
   * result. Chunks with documents always have a text, so nothing fails.
   */
  lemma SimilarLongestPrefix(ranked: seq<Chunk>, limit: int, files: map<string, string>, env: Env)
    requires HasDocuments(ranked)
    ensures var r := Similar(ranked, limit, files, env);
      && r.Done? && r.value == ranked[..|r.value|]
      && forall m :: 0 < m <= |ranked| ==> (Cost(ranked[..m], files, env) <= limit <==> m <= |r.value|)
  {
    assert ranked[..0] == [];
    SelectFromFacts(ranked, 0, 0, limit, files, env);
    var n := SelectFrom(ranked, 0, 0, limit, files, env).value;
    forall m | 0 < m <= |ranked|
      ensures Cost(ranked[..m], files, env) <= limit <==> m <= n
    {
      if m <= n {
        CostMonotone(ranked, m, n, files, env);
      } else {
        CostMonotone(ranked, n + 1, m, files, env);
      }
    }
  }

  /** The ranking is ordered by descending score. */
  predicate Descending(ranked: seq<Chunk>, score: Chunk -> real)
  {
    forall j, k :: 0 <= j < k < |ranked| ==> score(ranked[j]) >= score(ranked[k])
  }

  // ---------------------------------------------------------------- migrate

  /** The version a database without one is taken to have. */
  const DefaultVersion: string := "0.1.0"

  /** The error for a database written by a newer grokker. */
  function NewerError(db: string, code: string): string
  {
    "grokker db is version " + db + ", but you're running version " + code + " -- upgrade grokker"
  }

  /**
   * The parts of migrate that are not in this model: the semver library's
   * Parse and Upgrade (which parts of the version an upgrade from the first
   * version to the second changes: major, minor, patch), and the database
   * migration, which yields the version it leaves the database at, or an error.
   */
  datatype Migrator = Migrator(
    parse: string -> Result<GrokVersion.Version>,
    upgrade: (GrokVersion.Version, GrokVersion.Version) -> (bool, bool, bool),
    migrateDb: string -> Result<string>)

  /** Different version texts parse to different versions. */
  ghost predicate Canonical(parse: string -> Result<GrokVersion.Version>)
  {
    forall s, t :: parse(s).Ok? && parse(t).Ok? && parse(s).value == parse(t).value ==> s == t
  }

  /** The reading of version cores by Semantic Versioning 2.0.0 is canonical. */
  lemma ParseCanonical()
    ensures Canonical(GrokVersion.Parse)
  {
    forall s, t | GrokVersion.Parse(s).Ok? && GrokVersion.Parse(t).Ok? && GrokVersion.Parse(s).value == GrokVersion.Parse(t).value
      ensures s == t
    {
      GrokVersion.FormatParse(s);
      GrokVersion.FormatParse(t);
    }
  }

  /** One pass of the migration loop: it stops with an outcome, or continues from a new version. */
  datatype Step = Finished(outcome: Outcome<bool>) | Continue(next: string)

  /**
   * One pass of the migration loop at database version v: stop when it is
   * the code version, fail when it is newer or either does not parse; else a
   * minor upgrade runs the database migration and a patch upgrade just takes
   * the code version; an upgrade that does not change the patch part trips an assertion.
   */
  function MigrationStep(v: string, code: string, m: Migrator): Step
  {
    match m.parse(v)
    case Err(e) => Finished(Failed(e))
    case Ok(dbver) =>
      match m.parse(code)
      case Err(e) => Finished(Failed(e))
      case Ok(codever) =>
        if GrokVersion.Cmp(dbver, codever) == 0 then Finished(Done(false))
        else if GrokVersion.Cmp(dbver, codever) > 0 then Finished(Failed(NewerError(v, code)))
        else
          var (_, minor, patch) := m.upgrade(dbver, codever);
          if !patch then Finished(Crashes(PatchNotUpgraded))
          else if !minor then Continue(code)
          else match m.migrateDb(v)
            case Err(e) => Finished(Failed(e))
            case Ok(w) => Continue(w)
  }

  /** The migration loop from database version v with at most `fuel` passes: the version afterwards and whether some pass upgraded. */
  function Migration(v: string, code: string, m: Migrator, fuel: nat): (string, Outcome<bool>)
    decreases fuel
  {
    if fuel == 0 then (v, Hangs)
    else match MigrationStep(v, code, m)
      case Finished(out) => (v, out)
      case Continue(w) => After(Migration(w, code, m, fuel - 1), true)
  }

  /** The end of a migration, reported as having migrated when some earlier pass did. */
  function After(rest: (string, Outcome<bool>), migrated: bool): (string, Outcome<bool>)
  {
    (rest.0, if rest.1.Done? then Done(migrated || rest.1.value) else rest.1)
  }

  /** A migration that succeeds leaves the database at the code version, which parses. */
  lemma {:induction false} MigrationReachesCode(v: string, code: string, m: Migrator, fuel: nat)
    requires Canonical(m.parse)
    ensures var (u, out) := Migration(v, code, m, fuel);
      out.Done? ==> u == code && m.parse(code).Ok?
    decreases fuel
  {
    if fuel > 0 {
      match MigrationStep(v, code, m)
      case Finished(out) =>
        if out.Done? {
          GrokVersion.CmpOrder(m.parse(v).value, m.parse(code).value, m.parse(code).value);
        }
      case Continue(w) =>
        MigrationReachesCode(w, code, m, fuel - 1);
    }
  }

  /** A successful migration reports that it migrated exactly when the database was not at the code version. */
  lemma MigrationMigratedIff(v: string, code: string, m: Migrator, fuel: nat)
    requires Canonical(m.parse) && Migration(v, code, m, fuel).1.Done?
    ensures Migration(v, code, m, fuel).1.value <==> v != code
  {
    if m.parse(v).Ok? && m.parse(code).Ok? {
      GrokVersion.CmpOrder(m.parse(v).value, m.parse(code).value, m.parse(code).value);
    }
  }

  /** A database version newer than the code version is an error, and the version is left alone. */
  lemma MigrationNewer(v: string, code: string, m: Migrator, fuel: nat)
    requires fuel > 0 && m.parse(v).Ok? && m.parse(code).Ok?
    requires GrokVersion.Cmp(m.parse(v).value, m.parse(code).value) > 0
    ensures Migration(v, code, m, fuel) == (v, Failed(NewerError(v, code)))
  {
  }

  /** A patch-only upgrade sets the version to the code version and succeeds in one more pass. */
  lemma MigrationPatchStep(v: string, code: string, m: Migrator, fuel: nat)
    requires fuel >= 2 && m.parse(v).Ok? && m.parse(code).Ok?
    requires GrokVersion.Cmp(m.parse(v).value, m.parse(code).value) < 0
    requires var (_, minor, patch) := m.upgrade(m.parse(v).value, m.parse(code).value); patch && !minor
    ensures Migration(v, code, m, fuel) == (code, Done(true))
  {
    var c := m.parse(code).value;
    GrokVersion.CmpOrder(c, c, c);
    assert Migration(code, code, m, fuel - 1) == (code, Done(false));
  }

  /** A pass that continues: the rest of the migration, reported as having migrated. */
  lemma MigrationContinues(v: string, w: string, code: string, m: Migrator, fuel: nat, migrated: bool)
    requires fuel > 0 && MigrationStep(v, code, m) == Continue(w)
    ensures After(Migration(v, code, m, fuel), migrated) == After(Migration(w, code, m, fuel - 1), true)
  {
  }

  lemma AfterNothing(r: (string, Outcome<bool>))
    ensures After(r, false) == r
  {
  }

  /** What migrate reports: whether it migrated, and the versions before and after. */
  datatype Migrated = Migrated(migrated: bool, was: string, now: string)

  // ---------------------------------------------------------------- the database

  class Grokker {
    /** The grokker version this database was last updated with. */
    var version: string
    /** The documents of the database. */
    var documents: seq<Document>
    /** The chunks of the database. */
    var chunks: seq<Chunk>

    /** A database as loaded: its version, documents and chunks. */
    constructor (version: string, documents: seq<Document>, chunks: seq<Chunk>)
      ensures this.version == version && this.documents == documents && this.chunks == chunks
    {
      this.version := version;
      this.documents := documents;
      this.chunks := chunks;
    }

    /** The stale-marking loop of UpdateDocument. */
    method MarkStale(relPath: string)
      modifies this
      ensures chunks == Marked(old(chunks), relPath)
      ensures documents == old(documents) && version == old(version)
    {
      ghost var cs := chunks;
      var k := 0;
      while k < |chunks|
        invariant 0 <= k <= |chunks| == |cs| && documents == old(documents) && version == old(version)
        invariant forall j :: 0 <= j < k ==> chunks[j] == Marked(cs, relPath)[j]
        invariant forall j :: k <= j < |chunks| ==> chunks[j] == cs[j]
      {
        if chunks[k].document.Some? && chunks[k].document.value.relPath == relPath {
          chunks := chunks[k := chunks[k].(stale := true)];
        }
        k := k + 1;
      }
    }

    /** GC: keeps the chunks that are not stale, in order. */
    method GC()
      modifies this
      ensures chunks == Collected(old(chunks))
      ensures documents == old(documents) && version == old(version)
    {
      var keep: seq<Chunk> := [];
      var k := 0;
      while k < |chunks|
        invariant 0 <= k <= |chunks| && keep == Collected(chunks[..k])
        invariant chunks == old(chunks) && documents == old(documents) && version == old(version)
      {
        CollectedSnoc(chunks, k);
        if !chunks[k].stale {
          keep := keep + [chunks[k]];
        }
        k := k + 1;
      }
      assert chunks[..k] == chunks;
      chunks := keep;
    }

    /**
     * SetChunk: refreshes every entry with the chunk's hash and document, or
     * appends the chunk when there is none; `added` says it was appended.
     */
    method SetChunk(chunk: Chunk) returns (added: bool)
      requires HasDocuments(chunks) && chunk.document.Some?
      modifies this
      ensures chunks == WithChunk(old(chunks), chunk) && added == !Known(old(chunks), chunk)
      ensures documents == old(documents) && version == old(version)
    {
      ghost var cs := chunks;
      var found := false;
      var k := 0;
      while k < |chunks|
        invariant 0 <= k <= |chunks| == |cs| && documents == old(documents) && version == old(version)
        invariant forall j :: 0 <= j < k ==> chunks[j] == Refreshed(cs, chunk)[j]
        invariant forall j :: k <= j < |chunks| ==> chunks[j] == cs[j]
        invariant found <==> exists j :: 0 <= j < k && SameChunk(cs[j], chunk)
      {
        if chunks[k].hash == chunk.hash && chunks[k].document.value.relPath == chunk.document.value.relPath {
          chunks := chunks[k := chunks[k].(offset := chunk.offset, length := chunk.length, stale := false)];
          found := true;
        }
        k := k + 1;
      }
      if found {
        assert chunks == Refreshed(cs, chunk);
        added := false;
      } else {
        chunks := chunks + [chunk.(stale := false)];
        added := true;
      }
    }

    /** The reconcile loop of UpdateDocument: SetChunk for each chunk; the indices of those appended. */
    method Reconcile(leaves: seq<Chunk>) returns (idx: seq<nat>)
      requires HasDocuments(chunks) && forall k :: 0 <= k < |leaves| ==> leaves[k].document.Some?
      modifies this
      ensures (chunks, idx) == SetAll(old(chunks), leaves) && HasDocuments(chunks)
      ensures documents == old(documents) && version == old(version)
    {
      ghost var cs := chunks;
      idx := [];
      var k := 0;
      ReconcileStart(cs, leaves);
      while k < |leaves|
        invariant 0 <= k <= |leaves| && HasDocuments(chunks)
        invariant documents == old(documents) && version == old(version)
        invariant Reconciling(cs, leaves, chunks, idx, k)
      {
        WithChunkDocuments(chunks, leaves[k]);
        ghost var before, idx0 := chunks, idx;
        var n := |chunks|;
        var added := SetChunk(leaves[k]);
        if added {
          idx := idx + [n];
        }
        ReconcileStep(cs, leaves, before, idx0, k, chunks, idx);
        k := k + 1;
      }
      ReconcileEnd(cs, leaves, chunks, idx);
    }

    /** The texts of the new chunks, each checked by the source's assertions first. */
    method NewChunkTexts(idx: seq<nat>, relPath: string, files: map<string, string>) returns (r: Outcome<seq<string>>)
      requires IndicesIn(idx, |chunks|)
      ensures r == NewTexts(chunks, idx, relPath, files)
    {
      var texts: seq<string> := [];
      var k := 0;
      while k < |idx|
        invariant 0 <= k <= |idx| && IndicesIn(idx[..k], |chunks|)
        invariant NewTexts(chunks, idx[..k], relPath, files) == Done(texts)
      {
        assert idx[..k + 1][..k] == idx[..k];
        var c := chunks[idx[k]];
        var problem := Problem(c, relPath);
        if problem.Some? {
          NewTextsStuck(chunks, idx, k + 1, relPath, files);
          return Crashes(problem.value);
        }
        var text := ChunkText(c, true, files);
        texts := texts + [text.value];
        k := k + 1;
      }
      assert idx[..k] == idx;
      return Done(texts);
    }

    /** Stores each new chunk's embedding. */
    method Attach(idx: seq<nat>, vs: seq<Vector>)
      requires |idx| == |vs| && IndicesIn(idx, |chunks|)
      modifies this
      ensures chunks == Attached(old(chunks), idx, vs)
      ensures documents == old(documents) && version == old(version)
    {
      ghost var cs := chunks;
      var k := 0;
      while k < |idx|
        invariant 0 <= k <= |idx| && IndicesIn(idx[..k], |cs|)
        invariant chunks == Attached(cs, idx[..k], vs[..k])
        invariant documents == old(documents) && version == old(version)
      {
        assert idx[..k + 1][..k] == idx[..k] && vs[..k + 1][..k] == vs[..k];
        chunks := chunks[idx[k] := chunks[idx[k]].(embedding := Some(vs[k]))];
        k := k + 1;
      }
      assert idx[..k] == idx && vs[..k] == vs;
    }

    /**
     * UpdateDocument: marks the document's chunks stale, reconciles the
     * chunks of its current text and embeds the new ones; true when some
     * chunk was new.
     */
    method UpdateDocument(doc: Document, files: map<string, string>, env: Env, provider: GrokEmbed.Provider)
      returns (r: Outcome<bool>)
      requires HasDocuments(chunks)
      modifies this
      ensures (chunks, r) == Updated(old(chunks), doc, files, env, provider) && HasDocuments(chunks)
      ensures documents == old(documents) && version == old(version)
    {
      UpdatedDocuments(chunks, doc, files, env, provider);
      ghost var cs := chunks;
      MarkStale(doc.relPath);
      if doc.relPath !in files {
        return Failed(NotReadable(doc.relPath));
      }
      var split := ChunksFromString(Some(doc), files[doc.relPath], EmbeddingTokenLimit, env);
      match split
      case Diverges => return Crashes(StackOverflow);
      case Panics(m) => return Crashes(SplitPanics(m));
      case Pieces(leaves) =>
        ghost var marked := chunks;
        var idx := Reconcile(leaves);
        SetAllFrame(marked, leaves, doc.relPath);
        var texts := NewChunkTexts(idx, doc.relPath, files);
        match texts
        case Failed(e) => return Failed(e);
        case Crashes(p) => return Crashes(p);
        case Hangs => return Hangs;
        case Done(ts) =>
          var em := GrokEmbed.CreateEmbeddings(ts, env.tokens, EmbeddingTokenLimit, provider);
          match em
          case Failed(e) => return Failed(e);
          case Crashes(a) => return Crashes(EmbedAssertion(a));
          case Done(vs) =>
            Attach(idx, vs);
            return Done(|idx| > 0);
    }

    /**
     * AddDocument for the file at RelPath relPath: an error when the file is
     * missing; otherwise the document is added unless one with that RelPath
     * is there, and updated.
     */
    method AddDocument(relPath: string, files: map<string, string>, env: Env, provider: GrokEmbed.Provider)
      returns (r: Outcome<()>)
      requires HasDocuments(chunks)
      modifies this
      ensures relPath !in files ==> r == Failed("not found: " + relPath) && chunks == old(chunks) && documents == old(documents)
      ensures relPath in files ==>
        && documents == WithDocument(old(documents), relPath)
        && var (cs, out) := Updated(old(chunks), Document("", relPath), files, env, provider);
           chunks == cs && r == (match out case Done(_) => Done(()) case Failed(e) => Failed(e)
                                 case Crashes(c) => Crashes(c) case Hangs => Hangs)
      ensures version == old(version) && HasDocuments(chunks)
    {
      var doc := Document("", relPath);
      if relPath !in files {
        return Failed("not found: " + relPath);
      }
      var found := false;
      var k := 0;
      while k < |documents|
        invariant 0 <= k <= |documents|
        invariant found <==> exists j :: 0 <= j < k && documents[j].relPath == relPath
      {
        if documents[k].relPath == relPath {
          found := true;
          break;
        }
        k := k + 1;
      }
      if !found {
        documents := documents + [doc];
      }
      var out := UpdateDocument(doc, files, env, provider);
      match out
      case Done(_) => return Done(());
      case Failed(e) => return Failed(e);
      case Crashes(c) => return Crashes(c);
      case Hangs => return Hangs;
    }

    /**
     * ForgetDocument: removes the first document whose RelPath is the path,
     * or whose absolute path is the path made absolute; the chunks stay.
     * `abs` makes a path absolute and `absPathOf` gives a document's absolute path.
     */
    method ForgetDocument(path: string, abs: string -> Result<string>, absPathOf: Document -> string)
      returns (r: Outcome<()>)
      modifies this
      ensures old(documents) == [] ==> r == Done(()) && documents == old(documents)
      ensures old(documents) != [] && abs(path).Err? ==> r == Failed(abs(path).error) && documents == old(documents)
      ensures old(documents) != [] && abs(path).Ok? ==>
        r == Done(()) && documents == Forgotten(old(documents), ForgetTest(path, abs(path).value, absPathOf))
      ensures chunks == old(chunks) && version == old(version)
    {
      ghost var matches := ForgetTest(path, if abs(path).Ok? then abs(path).value else "", absPathOf);
      var k := 0;
      while k < |documents|
        invariant 0 <= k <= |documents| && documents == old(documents)
        invariant forall j :: 0 <= j < k ==> !matches(documents[j])
        invariant k > 0 ==> abs(path).Ok?
      {
        var absPath := abs(path);
        if absPath.Err? {
          return Failed(absPath.error);
        }
        if documents[k].relPath == path || absPathOf(documents[k]) == absPath.value {
          ForgetAt(documents, matches, k);
          documents := documents[..k] + documents[k + 1..];
          return Done(());
        }
        k := k + 1;
      }
      ForgetNone(documents, matches);
      return Done(());
    }

    /**
     * SimilarChunks: given the chunks ranked by descending similarity score,
     * those that fit in the token budget, in rank order.
     */
    method SimilarChunks(score: Chunk -> real, ranked: seq<Chunk>, limit: int, files: map<string, string>, env: Env)
      returns (r: Outcome<seq<Chunk>>)
      requires multiset(ranked) == multiset(chunks) && Descending(ranked, score)
      ensures r == Similar(ranked, limit, files, env)
    {
      var selected: seq<Chunk> := [];
      var total := 0;
      var k := 0;
      while k < |ranked|
        invariant 0 <= k <= |ranked| && selected == ranked[..k]
        invariant SelectFrom(ranked, 0, 0, limit, files, env) == SelectFrom(ranked, k, total, limit, files, env)
      {
        var text := ChunkText(ranked[k], true, files);
        if text.Err? {
          return Crashes(ChunkTextEmpty);
        }
        total := total + env.tokens(text.value);
        if total > limit {
          break;
        }
        selected := selected + [ranked[k]];
        k := k + 1;
      }
      return Done(selected);
    }

    /** migrate: brings the database version up to the code version `code`, with at most `fuel` steps. */
    method Migrate(code: string, m: Migrator, fuel: nat)
      returns (r: Outcome<Migrated>)
      modifies this
      ensures var start := if old(version) == "" then DefaultVersion else old(version);
        var (u, out) := Migration(start, code, m, fuel);
        version == u
        && r == (match out case Done(m) => Done(Migrated(m, old(version), u)) case Failed(e) => Failed(e)
                 case Crashes(c) => Crashes(c) case Hangs => Hangs)
      ensures documents == old(documents) && chunks == old(chunks)
    {
      var was := version;
      var v := if version == "" then DefaultVersion else version;
      ghost var whole := Migration(v, code, m, fuel);
      var migrated := false;
      var steps := fuel;
      AfterNothing(whole);
      while true
        invariant whole == After(Migration(v, code, m, steps), migrated)
        invariant version == old(version) && documents == old(documents) && chunks == old(chunks)
        decreases steps
      {
        if steps == 0 {
          version := v;
          return Hangs;
        }
        var step := MigrationStep(v, code, m);
        if step.Finished? {
          version := v;
          if step.outcome.Done? {
            return Done(Migrated(migrated, was, v));
          }
          return match step.outcome case Failed(e) => Failed(e) case Crashes(c) => Crashes(c) case _ => Hangs;
        }
        MigrationContinues(v, step.next, code, m, steps, migrated);
        v := step.next;
        migrated := true;
        steps := steps - 1;
      }
    }
  }
}
