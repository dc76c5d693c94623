/**
 * Chunks of the Grokker knowledge base (ai-agents/api.go): the chunk record,
 * paragraph splitting, the recursive token-bounded split, and reading a
 * chunk's text back from its document.
 *
 * The tokenizer and SHA-256 are external: they are the two functions of an
 * `Env`. A document's file content is looked up in a map from RelPath to text.
 */
module GrokChunks {
  import opened Wrappers
  import GoStrings

  /** A document of the knowledge base; `path` is the deprecated absolute form. */
  datatype Document = Document(path: string, relPath: string)

  /** An embedding vector as returned by the embedding provider. */
  type Vector = seq<real>

  /**
   * A chunk of a document: byte range, hash of the document-qualified text,
   * the text itself (not persisted), the embedding (None stands for nil) and
   * the transient stale mark used by reconciliation.
   */
  datatype Chunk = Chunk(
    document: Option<Document>,
    offset: nat,
    length: nat,
    hash: string,
    text: string,
    embedding: Option<Vector>,
    stale: bool)

  /**
   * The external collaborators: the tokenizer's token count, the SHA-256
   * digest, and the chunk hash of a RelPath and a text, which
   * HashIsHexSha256 pins to the hex digest of the prefixed text.
   */
  datatype Env = Env(tokens: string -> nat, sha256: string -> seq<byte>, hash: (string, string) -> string)

  /** The chunk hash is the hex SHA-256 of the text prefixed with its RelPath, as NewChunk computes it. */
  ghost predicate HashIsHexSha256(env: Env)
  {
    forall relPath, text :: env.hash(relPath, text) == Hex(env.sha256(PrefixedText(relPath, text)))
  }

  /** SHA-256 always yields 32 bytes. */
  ghost predicate DigestsAre32Bytes(env: Env)
  {
    forall s :: |env.sha256(s)| == 32
  }

  /** A text never has more tokens than characters (the byte pre-filter of splitChunk relies on this). */
  ghost predicate TokensAtMostLength(env: Env)
  {
    forall s :: env.tokens(s) <= |s|
  }

  const HexDigits: string := "0123456789abcdef"

  /** `hex.EncodeToString`: two lower-case hex digits per byte. */
  function Hex(bs: seq<byte>): (r: string)
    ensures |r| == 2 * |bs|
  {
    if bs == [] then ""
    else [HexDigits[(bs[0] as int) / 16], HexDigits[(bs[0] as int) % 16]] + Hex(bs[1..])
  }

  /** The document-qualified rendering of a chunk's text that is hashed and sent to the provider. */
  function PrefixedText(relPath: string, text: string): string
  {
    "from " + relPath + ":\n" + text + "\n"
  }

  /** NewChunk: a fresh chunk, hashed by its document's RelPath and its text; without a document the hash is empty. */
  function NewChunk(doc: Option<Document>, offset: nat, length: nat, text: string, env: Env): (c: Chunk)
    ensures c.document == doc && c.offset == offset && c.length == length && c.text == text
    ensures c.embedding == None && !c.stale
    ensures doc.None? ==> c.hash == ""
  {
    var hash := if doc.Some? then env.hash(doc.value.relPath, text) else "";
    Chunk(doc, offset, length, hash, text, None, false)
  }

  /** A document's chunk hash is the 64-digit hex SHA-256 of its prefixed text. */
  lemma NewChunkHash(doc: Document, offset: nat, length: nat, text: string, env: Env)
    requires HashIsHexSha256(env)
    ensures NewChunk(Some(doc), offset, length, text, env).hash == Hex(env.sha256(PrefixedText(doc.relPath, text)))
    ensures DigestsAre32Bytes(env) ==> |NewChunk(Some(doc), offset, length, text, env).hash| == 64
  {
  }

  /**
   * Chunk identity: equal text in documents with the same RelPath gets the
   * same hash whatever its offset, and a document's chunks with different
   * texts are told apart by any digest that is injective on prefixed texts.
   */
  lemma NewChunkIdentity(d1: Document, d2: Document, o1: nat, o2: nat, l1: nat, l2: nat, t1: string, t2: string, env: Env)
    requires d1.relPath == d2.relPath
    ensures t1 == t2 ==> NewChunk(Some(d1), o1, l1, t1, env).hash == NewChunk(Some(d2), o2, l2, t2, env).hash
    ensures HashIsHexSha256(env) && (forall x, y :: env.sha256(x) == env.sha256(y) ==> x == y) && t1 != t2
            ==> NewChunk(Some(d1), o1, l1, t1, env).hash != NewChunk(Some(d2), o2, l2, t2, env).hash
  {
    if HashIsHexSha256(env) && t1 != t2 && (forall x, y :: env.sha256(x) == env.sha256(y) ==> x == y) {
      var p1, p2 := PrefixedText(d1.relPath, t1), PrefixedText(d2.relPath, t2);
      var pre := "from " + d1.relPath + ":\n";
      assert p1 == pre + t1 + "\n" && p2 == pre + t2 + "\n";
      if |t1| == |t2| {
        var k :| 0 <= k < |t1| && t1[k] != t2[k];
        assert p1[|pre| + k] == t1[k] && p2[|pre| + k] == t2[k];
      } else {
        assert |p1| != |p2|;
      }
      HexInjective(env.sha256(p1), env.sha256(p2));
    }
  }

  /** Hex encoding loses nothing. */
  lemma HexInjective(a: seq<byte>, b: seq<byte>)
    ensures Hex(a) == Hex(b) ==> a == b
  {
    if Hex(a) == Hex(b) {
      assert |a| == |b|;
      forall k | 0 <= k < |a|
        ensures a[k] == b[k]
      {
        HexByteAt(a, b, k);
      }
    }
  }

  lemma HexByteAt(a: seq<byte>, b: seq<byte>, k: nat)
    requires Hex(a) == Hex(b) && k < |a| == |b|
    ensures a[k] == b[k]
  {
    HexAt(a, k);
    HexAt(b, k);
    DigitInjective((a[k] as int) / 16, (b[k] as int) / 16);
    DigitInjective((a[k] as int) % 16, (b[k] as int) % 16);
    ByteFromDigits(a[k], b[k]);
  }

  /** Byte `k` is rendered as characters 2k and 2k+1 of the encoding. */
  lemma {:induction false} HexAt(bs: seq<byte>, k: nat)
    requires k < |bs|
    ensures Hex(bs)[2 * k] == HexDigits[(bs[k] as int) / 16]
    ensures Hex(bs)[2 * k + 1] == HexDigits[(bs[k] as int) % 16]
    decreases k
  {
    if k > 0 {
      HexAt(bs[1..], k - 1);
      assert Hex(bs)[2..] == Hex(bs[1..]);
    }
  }

  lemma ByteFromDigits(x: byte, y: byte)
    requires (x as int) / 16 == (y as int) / 16 && (x as int) % 16 == (y as int) % 16
    ensures x == y
  {
    assert x as int == y as int;
  }

  lemma DigitInjective(i: int, j: int)
    requires 0 <= i < 16 && 0 <= j < 16 && HexDigits[i] == HexDigits[j]
    ensures i == j
  {
  }

  /**
   * `cs` lays its texts end to end from document offset `base` and their
   * concatenation is `txt`: each chunk's Length is its text's length and the
   * next chunk starts where it ends.
   */
  predicate TilesFrom(cs: seq<Chunk>, base: int, txt: string)
    decreases |cs|
  {
    if cs == [] then txt == []
    else
      && cs[0].offset == base
      && cs[0].length == |cs[0].text|
      && GoStrings.HasPrefix(txt, cs[0].text)
      && TilesFrom(cs[1..], base + |cs[0].text|, txt[|cs[0].text|..])
  }

  /** A tiling puts every chunk's text at its offset inside `txt`. */
  lemma {:induction false} TilesLocate(cs: seq<Chunk>, base: int, txt: string, k: nat)
    requires TilesFrom(cs, base, txt) && k < |cs|
    ensures base <= cs[k].offset && cs[k].offset - base + cs[k].length <= |txt|
    ensures txt[cs[k].offset - base..cs[k].offset - base + cs[k].length] == cs[k].text
    decreases k
  {
    if k > 0 {
      var n := |cs[0].text|;
      TilesLocate(cs[1..], base + n, txt[n..], k - 1);
      assert cs[1..][k - 1] == cs[k];
    }
  }

  /** Every chunk of `cs` belongs to `doc`. */
  predicate AllOf(cs: seq<Chunk>, doc: Option<Document>)
  {
    forall k :: 0 <= k < |cs| ==> cs[k].document == doc
  }

  // ---------------------------------------------------------------- paragraphs

  /** Whether `delimiter` occurs in `txt` at position `j`, compared character by character. */
  predicate DelimAt(txt: string, delimiter: string, j: nat)
    decreases |delimiter|
  {
    delimiter == [] || (j < |txt| && txt[j] == delimiter[0] && DelimAt(txt, delimiter[1..], j + 1))
  }

  /** DelimAt is the slice comparison splitIntoChunks makes. */
  lemma {:induction false} DelimAtSlice(txt: string, delimiter: string, j: nat)
    requires j + |delimiter| <= |txt|
    ensures DelimAt(txt, delimiter, j) <==> txt[j..j + |delimiter|] == delimiter
    decreases |delimiter|
  {
    if delimiter != [] {
      DelimAtSlice(txt, delimiter[1..], j + 1);
      assert txt[j..j + |delimiter|] == [txt[j]] + txt[j + 1..j + |delimiter|];
    }
  }

  /**
   * The chunks splitIntoChunks emits once the current chunk starts at `start`
   * and position `i` is next to be tested: a delimiter at a tested position
   * ends a chunk just after it, the last chunk runs to the end of the text,
   * and empty pieces are not emitted. Positions from `|txt| - |delimiter|` on
   * are not tested.
   */
  function Paragraphs(doc: Option<Document>, txt: string, delimiter: string, start: nat, i: nat, env: Env): seq<Chunk>
    requires start <= i <= |txt|
  {
    ParagraphsBy(doc, txt, |delimiter|, CutsOf(txt, delimiter), start, i, env)
  }

  /** The positions of `txt` where `delimiter` occurs. */
  function CutsOf(txt: string, delimiter: string): nat -> bool
  {
    (j: nat) => DelimAt(txt, delimiter, j)
  }

  /** Paragraphs for a delimiter of length `dlen` that occurs exactly where `isCut` holds. */
  function ParagraphsBy(doc: Option<Document>, txt: string, dlen: nat, isCut: nat -> bool, start: nat, i: nat, env: Env): seq<Chunk>
    requires start <= i <= |txt|
    decreases |txt| - i
  {
    if i >= |txt| - dlen then
      if start < |txt| then [NewChunk(doc, start, |txt| - start, txt[start..], env)] else []
    else if !isCut(i) || start == i + dlen then
      ParagraphsBy(doc, txt, dlen, isCut, start, i + 1, env)
    else
      [NewChunk(doc, start, i + dlen - start, txt[start..i + dlen], env)]
      + ParagraphsBy(doc, txt, dlen, isCut, i + dlen, i + dlen + 1, env)
  }

  /** Every chunk of `cs` has a non-empty text. */
  predicate NonEmptyTexts(cs: seq<Chunk>)
  {
    forall k :: 0 <= k < |cs| ==> cs[k].text != []
  }

  /**
   * `cs` tiles `txt` from `base` (as TilesFrom) with non-empty chunks of
   * `doc`; stated chunk by chunk.
   */
  predicate GoodParagraphs(cs: seq<Chunk>, base: int, txt: string, doc: Option<Document>)
    decreases |cs|
  {
    if cs == [] then txt == []
    else
      && cs[0].offset == base
      && cs[0].length == |cs[0].text|
      && cs[0].document == doc
      && cs[0].text != []
      && GoStrings.HasPrefix(txt, cs[0].text)
      && GoodParagraphs(cs[1..], base + |cs[0].text|, txt[|cs[0].text|..], doc)
  }

  lemma {:induction false} GoodParagraphsMeans(cs: seq<Chunk>, base: int, txt: string, doc: Option<Document>)
    requires GoodParagraphs(cs, base, txt, doc)
    ensures TilesFrom(cs, base, txt) && AllOf(cs, doc) && NonEmptyTexts(cs)
    decreases |cs|
  {
    if cs != [] {
      var k := |cs[0].text|;
      GoodParagraphsMeans(cs[1..], base + k, txt[k..], doc);
      assert forall j :: 1 <= j < |cs| ==> cs[j] == cs[1..][j - 1];
    }
  }

  /** The paragraphs are non-empty chunks of `doc` that tile the text from `start`, wherever the delimiter occurs. */
  lemma {:induction false} ParagraphsTile(doc: Option<Document>, txt: string, dlen: nat, isCut: nat -> bool, start: nat, i: nat, env: Env)
    requires start <= i <= |txt|
    ensures GoodParagraphs(ParagraphsBy(doc, txt, dlen, isCut, start, i, env), start, txt[start..], doc)
    decreases |txt| - i
  {
    if i >= |txt| - dlen {
      if start < |txt| {
        var c := NewChunk(doc, start, |txt| - start, txt[start..], env);
        assert txt[start..][|c.text|..] == [];
        assert [c][1..] == [];
      }
    } else if !isCut(i) || start == i + dlen {
      ParagraphsTile(doc, txt, dlen, isCut, start, i + 1, env);
    } else {
      var e := i + dlen;
      ParagraphsTile(doc, txt, dlen, isCut, e, e + 1, env);
      CutAssemble(NewChunk(doc, start, e - start, txt[start..e], env), ParagraphsBy(doc, txt, dlen, isCut, e, e + 1, env), txt, start, e, doc);
    }
  }

  /** A chunk for [start, e) followed by a good tiling from `e` is a good tiling from `start`. */
  lemma CutAssemble(c: Chunk, rest: seq<Chunk>, txt: string, start: nat, e: nat, doc: Option<Document>)
    requires start < e <= |txt|
    requires c.offset == start && c.length == e - start && c.text == txt[start..e] && c.document == doc
    requires GoodParagraphs(rest, e, txt[e..], doc)
    ensures GoodParagraphs([c] + rest, start, txt[start..], doc)
  {
    var tail := txt[start..];
    assert tail[e - start..] == txt[e..];
    assert tail[..e - start] == c.text;
    assert ([c] + rest)[0] == c && ([c] + rest)[1..] == rest;
  }

  /** The paragraphs of a whole text tile it with non-empty chunks of `doc`. */
  lemma ParagraphsGood(doc: Option<Document>, txt: string, delimiter: string, env: Env)
    ensures var ps := Paragraphs(doc, txt, delimiter, 0, 0, env);
      TilesFrom(ps, 0, txt) && AllOf(ps, doc) && NonEmptyTexts(ps)
    ensures Paragraphs(doc, txt, delimiter, 0, 0, env) == [] <==> txt == []
  {
    ParagraphsTile(doc, txt, |delimiter|, CutsOf(txt, delimiter), 0, 0, env);
    assert txt[0..] == txt;
    GoodParagraphsMeans(Paragraphs(doc, txt, delimiter, 0, 0, env), 0, txt, doc);
  }

  /**
   * Where the cuts fall in `ps`: every paragraph but the last ends with a
   * cut of length `dlen`, and no paragraph holds a cut strictly after its
   * first position that ends before its end.
   */
  predicate CutFree(ps: seq<Chunk>, dlen: nat, isCut: nat -> bool)
    decreases |ps|
  {
    if ps == [] then true
    else
      && (|ps| > 1 ==> dlen <= ps[0].length && isCut(ps[0].offset + ps[0].length - dlen))
      && (forall j :: ps[0].offset < j && j + dlen < ps[0].offset + ps[0].length ==> !isCut(j))
      && CutFree(ps[1..], dlen, isCut)
  }

  /** CutFree read at paragraph `k`. */
  lemma {:induction false} CutFreeAt(ps: seq<Chunk>, dlen: nat, isCut: nat -> bool, k: nat)
    requires CutFree(ps, dlen, isCut) && k < |ps|
    ensures k < |ps| - 1 ==> dlen <= ps[k].length && isCut(ps[k].offset + ps[k].length - dlen)
    ensures forall j :: ps[k].offset < j && j + dlen < ps[k].offset + ps[k].length ==> !isCut(j)
    decreases k
  {
    if k > 0 {
      CutFreeAt(ps[1..], dlen, isCut, k - 1);
      assert ps[1..][k - 1] == ps[k];
    }
  }

  /** For any cut predicate, once no cut lies strictly between `start` and `i`, the paragraphs are CutFree. */
  lemma {:induction false} ParagraphsCutFree(doc: Option<Document>, txt: string, dlen: nat, isCut: nat -> bool, start: nat, i: nat, env: Env)
    requires start <= i <= |txt|
    requires forall j :: start < j < i ==> !isCut(j)
    ensures CutFree(ParagraphsBy(doc, txt, dlen, isCut, start, i, env), dlen, isCut)
    decreases |txt| - i
  {
    if i >= |txt| - dlen {
      if start < |txt| {
        CutFreeLast(NewChunk(doc, start, |txt| - start, txt[start..], env), dlen, isCut, i);
      }
    } else if !isCut(i) || start == i + dlen {
      ParagraphsCutFree(doc, txt, dlen, isCut, start, i + 1, env);
    } else {
      ParagraphsCutFree(doc, txt, dlen, isCut, i + dlen, i + dlen + 1, env);
      CutFreeAtCut(doc, txt, dlen, isCut, start, i, env);
    }
  }

  /** The cut step of ParagraphsCutFree. */
  lemma CutFreeAtCut(doc: Option<Document>, txt: string, dlen: nat, isCut: nat -> bool, start: nat, i: nat, env: Env)
    requires start <= i < |txt| - dlen && isCut(i) && start != i + dlen
    requires forall j :: start < j < i ==> !isCut(j)
    requires CutFree(ParagraphsBy(doc, txt, dlen, isCut, i + dlen, i + dlen + 1, env), dlen, isCut)
    ensures CutFree(ParagraphsBy(doc, txt, dlen, isCut, start, i, env), dlen, isCut)
  {
    var e := i + dlen;
    var c := NewChunk(doc, start, e - start, txt[start..e], env);
    var rest := ParagraphsBy(doc, txt, dlen, isCut, e, e + 1, env);
    CutFreeCons(c, rest, dlen, isCut, i);
    assert ParagraphsBy(doc, txt, dlen, isCut, start, i, env) == [c] + rest;
  }

  /** The last paragraph, free of cuts after its first position up to the untested tail. */
  lemma CutFreeLast(c: Chunk, dlen: nat, isCut: nat -> bool, i: nat)
    requires c.offset + c.length <= i + dlen
    requires forall j :: c.offset < j < i ==> !isCut(j)
    ensures CutFree([c], dlen, isCut)
  {
    assert [c][1..] == [];
  }

  /** A paragraph ending with the cut at `i`, free of cuts before it, followed by CutFree paragraphs. */
  lemma CutFreeCons(c: Chunk, rest: seq<Chunk>, dlen: nat, isCut: nat -> bool, i: nat)
    requires CutFree(rest, dlen, isCut) && c.offset + c.length == i + dlen && c.offset <= i && isCut(i)
    requires forall j :: c.offset < j < i ==> !isCut(j)
    ensures CutFree([c] + rest, dlen, isCut)
  {
    assert ([c] + rest)[0] == c && ([c] + rest)[1..] == rest;
  }

  /**
   * The delimiter's role: every paragraph but the last ends with the
   * delimiter, and inside a paragraph the delimiter occurs only at its very
   * first position (the position splitIntoChunks steps over after a cut) or
   * as the paragraph's last characters.
   */
  predicate CutAtDelimiters(ps: seq<Chunk>, delimiter: string)
  {
    && (forall k :: 0 <= k < |ps| - 1 ==>
          |delimiter| <= |ps[k].text| && ps[k].text[|ps[k].text| - |delimiter|..] == delimiter)
    && (forall k, r :: 0 <= k < |ps| && 0 < r && r + |delimiter| < |ps[k].text| ==>
          !DelimAt(ps[k].text, delimiter, r))
  }

  /** The paragraphs of a whole text are cut exactly at the delimiters splitIntoChunks tests. */
  lemma {:induction false} ParagraphsDelimited(doc: Option<Document>, txt: string, delimiter: string, env: Env)
    ensures CutAtDelimiters(Paragraphs(doc, txt, delimiter, 0, 0, env), delimiter)
  {
    var ps := Paragraphs(doc, txt, delimiter, 0, 0, env);
    forall k | 0 <= k < |ps|
      ensures k < |ps| - 1 ==> |delimiter| <= |ps[k].text| && ps[k].text[|ps[k].text| - |delimiter|..] == delimiter
      ensures forall r :: 0 < r && r + |delimiter| < |ps[k].text| ==> !DelimAt(ps[k].text, delimiter, r)
    {
      ParagraphDelimited(doc, txt, delimiter, env, k);
    }
  }

  /** ParagraphsDelimited for paragraph `k`. */
  lemma {:induction false} ParagraphDelimited(doc: Option<Document>, txt: string, delimiter: string, env: Env, k: nat)
    requires k < |Paragraphs(doc, txt, delimiter, 0, 0, env)|
    ensures var ps := Paragraphs(doc, txt, delimiter, 0, 0, env);
      && (k < |ps| - 1 ==> |delimiter| <= |ps[k].text| && ps[k].text[|ps[k].text| - |delimiter|..] == delimiter)
      && (forall r :: 0 < r && r + |delimiter| < |ps[k].text| ==> !DelimAt(ps[k].text, delimiter, r))
  {
    var ps := Paragraphs(doc, txt, delimiter, 0, 0, env);
    ParagraphLocated(doc, txt, delimiter, env, k);
    ParagraphCuts(doc, txt, delimiter, env, k);
    ChunkDelimited(txt, delimiter, ps[k], k == |ps| - 1);
  }

  /** Paragraph `k` is the slice of `txt` at its offset. */
  lemma ParagraphLocated(doc: Option<Document>, txt: string, delimiter: string, env: Env, k: nat)
    requires k < |Paragraphs(doc, txt, delimiter, 0, 0, env)|
    ensures var c := Paragraphs(doc, txt, delimiter, 0, 0, env)[k];
      c.length == |c.text| && c.offset + |c.text| <= |txt| && txt[c.offset..c.offset + |c.text|] == c.text
  {
    ParagraphsGood(doc, txt, delimiter, env);
    TilesLocate(Paragraphs(doc, txt, delimiter, 0, 0, env), 0, txt, k);
  }

  /** Where the delimiter occurs in `txt` around paragraph `k`. */
  lemma ParagraphCuts(doc: Option<Document>, txt: string, delimiter: string, env: Env, k: nat)
    requires k < |Paragraphs(doc, txt, delimiter, 0, 0, env)|
    ensures var ps := Paragraphs(doc, txt, delimiter, 0, 0, env); var c := ps[k];
      && (k < |ps| - 1 ==> |delimiter| <= c.length && DelimAt(txt, delimiter, c.offset + c.length - |delimiter|))
      && (forall j :: c.offset < j && j + |delimiter| < c.offset + c.length ==> !DelimAt(txt, delimiter, j))
  {
    var ps := Paragraphs(doc, txt, delimiter, 0, 0, env);
    var isCut := CutsOf(txt, delimiter);
    ParagraphsCutFree(doc, txt, |delimiter|, isCut, 0, 0, env);
    CutFreeAt(ps, |delimiter|, isCut, k);
    forall j | ps[k].offset < j && j + |delimiter| < ps[k].offset + ps[k].length
      ensures !DelimAt(txt, delimiter, j)
    {
      assert !isCut(j);
    }
  }

  /** One paragraph, located in `txt`, read in its own text: where the delimiter occurs in it. */
  lemma {:induction false} ChunkDelimited(txt: string, delimiter: string, c: Chunk, last: bool)
    requires c.length == |c.text| && c.offset + |c.text| <= |txt| && txt[c.offset..c.offset + |c.text|] == c.text
    requires !last ==> |delimiter| <= c.length && DelimAt(txt, delimiter, c.offset + c.length - |delimiter|)
    requires forall j :: c.offset < j && j + |delimiter| < c.offset + c.length ==> !DelimAt(txt, delimiter, j)
    ensures !last ==> |delimiter| <= |c.text| && c.text[|c.text| - |delimiter|..] == delimiter
    ensures forall r :: 0 < r && r + |delimiter| < |c.text| ==> !DelimAt(c.text, delimiter, r)
  {
    if !last {
      ChunkEndsWithDelimiter(txt, delimiter, c.text, c.offset);
    }
    forall r | 0 < r && r + |delimiter| < |c.text|
      ensures !DelimAt(c.text, delimiter, r)
    {
      DelimAtShift(txt, delimiter, c.text, c.offset, r);
    }
  }

  lemma {:induction false} ChunkEndsWithDelimiter(txt: string, delimiter: string, s: string, o: nat)
    requires o + |s| <= |txt| && txt[o..o + |s|] == s
    requires |delimiter| <= |s| && DelimAt(txt, delimiter, o + |s| - |delimiter|)
    ensures s[|s| - |delimiter|..] == delimiter
  {
    var r := |s| - |delimiter|;
    DelimAtShift(txt, delimiter, s, o, r);
    DelimAtSlice(s, delimiter, r);
    assert s[r..] == s[r..r + |delimiter|];
  }

  /** The delimiter occurs at `r` in a slice of `txt` from `o` exactly when it occurs at `o + r` in `txt`. */
  lemma {:induction false} DelimAtShift(txt: string, delimiter: string, s: string, o: nat, r: nat)
    requires o + |s| <= |txt| && txt[o..o + |s|] == s && r + |delimiter| <= |s|
    ensures DelimAt(s, delimiter, r) <==> DelimAt(txt, delimiter, o + r)
  {
    DelimAtSlice(txt, delimiter, o + r);
    DelimAtSlice(s, delimiter, r);
    assert forall m :: r <= m < r + |delimiter| ==> s[m] == txt[o..o + |s|][m] == txt[o + m];
    assert s[r..r + |delimiter|] == txt[o + r..o + r + |delimiter|];
  }

  /**
   * Four newlines after "x" give two paragraphs: the first cut takes the
   * first pair, and the second pair, at the untested first position of the
   * next paragraph, stays at its front.
   */
  lemma ParagraphsExample(doc: Option<Document>, env: Env)
    ensures Paragraphs(doc, "x\n\n\n\nb", "\n\n", 0, 0, env)
         == [NewChunk(doc, 0, 3, "x\n\n", env), NewChunk(doc, 3, 3, "\n\nb", env)]
  {
    var txt := "x\n\n\n\nb";
    assert !DelimAt(txt, "\n\n", 0);
    assert DelimAt(txt, "\n\n", 1);
    assert txt[0..3] == "x\n\n" && txt[3..] == "\n\nb";
  }

  /** Paragraphs unfolded at a cut: the chunk up to the end of the delimiter, then the rest. */
  lemma ParagraphsCut(doc: Option<Document>, txt: string, delimiter: string, start: nat, i: nat, env: Env)
    requires start <= i < |txt| - |delimiter| && DelimAt(txt, delimiter, i) && start != i + |delimiter|
    ensures Paragraphs(doc, txt, delimiter, start, i, env)
      == [NewChunk(doc, start, i + |delimiter| - start, txt[start..i + |delimiter|], env)]
         + Paragraphs(doc, txt, delimiter, i + |delimiter|, i + |delimiter| + 1, env)
  {
  }

  /** Paragraphs at a tested position where no chunk ends: the same as from the next position. */
  lemma ParagraphsSkip(doc: Option<Document>, txt: string, delimiter: string, start: nat, i: nat, env: Env)
    requires start <= i < |txt| - |delimiter| && (!DelimAt(txt, delimiter, i) || start == i + |delimiter|)
    ensures Paragraphs(doc, txt, delimiter, start, i, env) == Paragraphs(doc, txt, delimiter, start, i + 1, env)
  {
  }

  /**
   * What one pass of splitIntoChunks' loop does to its invariant: the test
   * at `i` gave `t`, and the pass moved from (chunks, start, i) to
   * (chunks', start', i').
   */
  lemma BodyFacts(doc: Option<Document>, txt: string, delimiter: string, env: Env, start: nat, i: nat, t: string, done: bool,
                  chunks: seq<Chunk>, all: seq<Chunk>, chunks': seq<Chunk>, start': nat, i': nat)
    requires start <= i <= |txt| && chunks + Paragraphs(doc, txt, delimiter, start, i, env) == all
    requires done == (i >= |txt| - |delimiter|)
    requires t == if done then txt[start..] else if txt[i..i + |delimiter|] == delimiter then txt[start..i + |delimiter|] else ""
    requires t != "" ==> chunks' == chunks + [NewChunk(doc, start, |t|, t, env)] && start' == i + |delimiter| && i' == start' + 1
    requires t == "" ==> chunks' == chunks && start' == start && i' == i + 1
    ensures !done ==> start' <= i' <= |txt| && chunks' + Paragraphs(doc, txt, delimiter, start', i', env) == all
    ensures done ==> chunks' == all
  {
    if done {
      DoneFacts(doc, txt, delimiter, env, start, i, t, chunks, all, chunks');
    } else {
      DelimAtSlice(txt, delimiter, i);
      if t != "" {
        CutFacts(doc, txt, delimiter, env, start, i, t, chunks, all, chunks', start', i');
      } else {
        SkipFacts(doc, txt, delimiter, env, start, i, t, chunks, all);
      }
    }
  }

  lemma DoneFacts(doc: Option<Document>, txt: string, delimiter: string, env: Env, start: nat, i: nat, t: string,
                  chunks: seq<Chunk>, all: seq<Chunk>, chunks': seq<Chunk>)
    requires start <= i <= |txt| && i >= |txt| - |delimiter| && chunks + Paragraphs(doc, txt, delimiter, start, i, env) == all
    requires t == txt[start..]
    requires t != "" ==> chunks' == chunks + [NewChunk(doc, start, |t|, t, env)]
    requires t == "" ==> chunks' == chunks
    ensures chunks' == all
  {
    ParagraphsEnd(doc, txt, delimiter, start, i, env);
    if t == "" {
      assert chunks + [] == chunks;
    }
  }

  lemma CutFacts(doc: Option<Document>, txt: string, delimiter: string, env: Env, start: nat, i: nat, t: string,
                 chunks: seq<Chunk>, all: seq<Chunk>, chunks': seq<Chunk>, start': nat, i': nat)
    requires start <= i < |txt| - |delimiter| && chunks + Paragraphs(doc, txt, delimiter, start, i, env) == all
    requires DelimAt(txt, delimiter, i) <==> txt[i..i + |delimiter|] == delimiter
    requires t == (if txt[i..i + |delimiter|] == delimiter then txt[start..i + |delimiter|] else "") && t != ""
    requires chunks' == chunks + [NewChunk(doc, start, |t|, t, env)] && start' == i + |delimiter| && i' == start' + 1
    ensures start' <= i' <= |txt| && chunks' + Paragraphs(doc, txt, delimiter, start', i', env) == all
  {
    assert txt[i..i + |delimiter|] == delimiter;
    assert t == txt[start..i + |delimiter|] && |t| == i + |delimiter| - start;
    CutStep(chunks, all, doc, txt, delimiter, start, i, env);
  }

  lemma SkipFacts(doc: Option<Document>, txt: string, delimiter: string, env: Env, start: nat, i: nat, t: string,
                  chunks: seq<Chunk>, all: seq<Chunk>)
    requires start <= i < |txt| - |delimiter| && chunks + Paragraphs(doc, txt, delimiter, start, i, env) == all
    requires DelimAt(txt, delimiter, i) <==> txt[i..i + |delimiter|] == delimiter
    requires t == (if txt[i..i + |delimiter|] == delimiter then txt[start..i + |delimiter|] else "") && t == ""
    ensures chunks + Paragraphs(doc, txt, delimiter, start, i + 1, env) == all
  {
    if DelimAt(txt, delimiter, i) {
      assert |txt[start..i + |delimiter|]| == 0;
    }
    ParagraphsSkip(doc, txt, delimiter, start, i, env);
  }

  /** Paragraphs from an untested position: the rest of the text, if any, is the last chunk. */
  lemma ParagraphsEnd(doc: Option<Document>, txt: string, delimiter: string, start: nat, i: nat, env: Env)
    requires start <= i <= |txt| && i >= |txt| - |delimiter|
    ensures Paragraphs(doc, txt, delimiter, start, i, env)
      == if start < |txt| then [NewChunk(doc, start, |txt| - start, txt[start..], env)] else []
  {
  }

  /** The loop invariant of splitIntoChunks across a cut. */
  lemma CutStep(emitted: seq<Chunk>, all: seq<Chunk>, doc: Option<Document>, txt: string, delimiter: string, start: nat, i: nat, env: Env)
    requires start <= i < |txt| - |delimiter| && DelimAt(txt, delimiter, i) && start != i + |delimiter|
    requires emitted + Paragraphs(doc, txt, delimiter, start, i, env) == all
    ensures (emitted + [NewChunk(doc, start, i + |delimiter| - start, txt[start..i + |delimiter|], env)])
            + Paragraphs(doc, txt, delimiter, i + |delimiter|, i + |delimiter| + 1, env) == all
  {
    ParagraphsCut(doc, txt, delimiter, start, i, env);
    var c := NewChunk(doc, start, i + |delimiter| - start, txt[start..i + |delimiter|], env);
    var rest := Paragraphs(doc, txt, delimiter, i + |delimiter|, i + |delimiter| + 1, env);
    assert emitted + ([c] + rest) == (emitted + [c]) + rest;
  }

  /**
   * splitIntoChunks: walks the text once, cutting a chunk after each
   * delimiter it finds and a final chunk at the end. The result is exactly
   * `Paragraphs`: non-empty chunks of `doc`, starting at offset 0, contiguous,
   * with Length equal to their text's length, that concatenate to the input.
   */
  method SplitIntoChunks(doc: Option<Document>, txt: string, delimiter: string, env: Env) returns (chunks: seq<Chunk>)
    ensures chunks == Paragraphs(doc, txt, delimiter, 0, 0, env)
    ensures TilesFrom(chunks, 0, txt) && AllOf(chunks, doc)
    ensures NonEmptyTexts(chunks)
    ensures chunks == [] <==> txt == []
    ensures CutAtDelimiters(chunks, delimiter)
  {
    var start: nat, i: nat := 0, 0;
    var done := false;
    chunks := [];
    ghost var all := Paragraphs(doc, txt, delimiter, 0, 0, env);
    while !done
      invariant !done ==> start <= i <= |txt|
      invariant !done ==> chunks + Paragraphs(doc, txt, delimiter, start, i, env) == all
      invariant done ==> chunks == all
      decreases if done then 0 else 1, |txt| - i
    {
      var t := "";
      if i >= |txt| - |delimiter| {
        // at the end of the document: the rest is the last chunk
        t := txt[start..];
        done := true;
      } else if txt[i..i + |delimiter|] == delimiter {
        t := txt[start..i + |delimiter|];
      }
      ghost var chunks0, start0, i0 := chunks, start, i;
      if t != "" {
        var c := NewChunk(doc, start, |t|, t, env);
        chunks := chunks + [c];
        // the next chunk starts after the delimiter; `continue` still runs i++
        start := i + |delimiter|;
        i := start + 1;
      } else {
        i := i + 1;
      }
      BodyFacts(doc, txt, delimiter, env, start0, i0, t, done, chunks0, all, chunks, start, i);
    }
    ParagraphsGood(doc, txt, delimiter, env);
    ParagraphsDelimited(doc, txt, delimiter, env);
  }

  // ---------------------------------------------------------------- splitChunk

  /**
   * The outcome of splitting: the leaf chunks, a recursion without bound
   * (which in Go ends in the runtime's fatal stack overflow), or a run-time
   * panic.
   */
  datatype Split = Pieces(chunks: seq<Chunk>) | Diverges | Panics(reason: string)

  /** `int(math.Ceil(float64(a) / float64(b)))`, exact for the integers of interest. */
  function CeilDiv(a: nat, b: nat): nat
    requires b > 0
    decreases a
  {
    if a == 0 then 0 else if a <= b then 1 else 1 + CeilDiv(a - b, b)
  }

  /** CeilDiv is the least quotient that covers `a`. */
  lemma {:induction false} CeilDivBounds(a: nat, b: nat)
    requires b > 0
    ensures CeilDiv(a, b) * b >= a && (CeilDiv(a, b) - 1) * b < a
    decreases a
  {
    if a > b {
      var q := CeilDiv(a - b, b);
      CeilDivBounds(a - b, b);
      assert (1 + q) * b == q * b + b;
      assert q * b == (q - 1) * b + b;
    }
  }

  /** The smaller of `x` and `bound`. */
  function Clip(x: int, bound: int): int
  {
    if x > bound then bound else x
  }

  /** Every leaf passed the byte pre-filter or the token test. */
  predicate LeavesWithin(cs: seq<Chunk>, limit: int, env: Env)
  {
    forall k :: 0 <= k < |cs| ==> cs[k].length < limit || env.tokens(cs[k].text) < limit
  }

  /**
   * splitChunk: a chunk shorter than the limit in bytes, or in tokens, is a
   * leaf; otherwise it is cut into ceil(tokens/limit) ranges of
   * ceil(Length/numChunks) bytes, each split again. When the first range is
   * the whole chunk (numChunks is 1) the source recurses on an identical chunk
   * without bound, until Go's stack overflows: `Diverges`. A range whose start lies past the end is a
   * slice panic.
   */
  function SplitChunk(c: Chunk, limit: int, env: Env): (r: Split)
    requires limit > 0 && c.length == |c.text|
    decreases |c.text|, 1
  {
    if c.length < limit then Pieces([c])
    else
      var t := env.tokens(c.text);
      if t < limit then Pieces([c])
      else
        var n := CeilDiv(t, limit);
        var size := CeilDiv(c.length, n);
        if size >= c.length then Diverges
        else SplitPieces(c, limit, env, n, size, 0)
  }

  /**
   * The loop of splitChunk over its remaining `left` ranges of `size` bytes,
   * the next one starting at byte `start` (range i starts at i*size).
   */
  function SplitPieces(c: Chunk, limit: int, env: Env, left: nat, size: nat, start: nat): (r: Split)
    requires limit > 0 && c.length == |c.text| && 0 < size < |c.text|
    decreases |c.text|, 0, left
  {
    if left == 0 then Pieces([])
    else
      var end := Clip(start + size, c.length);
      if start > end then Panics("slice bounds out of range")
      else
        Combine(SplitRange(c, limit, env, start, end), SplitPieces(c, limit, env, left - 1, size, start + size))
  }

  /** The leaves of two splits in order, or the first failure. */
  function Combine(r1: Split, r2: Split): (r: Split)
    ensures r.Pieces? <==> r1.Pieces? && r2.Pieces?
    ensures r.Pieces? ==> r.chunks == r1.chunks + r2.chunks
  {
    match r1
    case Pieces(a) => (match r2 case Pieces(b) => Pieces(a + b) case other => other)
    case other => other
  }

  /**
   * The leaves `cs` tile `txt` from `base`, belong to `doc` and each passed
   * the byte or the token test; stated chunk by chunk.
   */
  predicate GoodLeaves(cs: seq<Chunk>, base: int, txt: string, doc: Option<Document>, limit: int, env: Env)
    decreases |cs|
  {
    if cs == [] then txt == []
    else
      && cs[0].offset == base
      && cs[0].length == |cs[0].text|
      && cs[0].document == doc
      && (cs[0].length < limit || env.tokens(cs[0].text) < limit)
      && GoStrings.HasPrefix(txt, cs[0].text)
      && GoodLeaves(cs[1..], base + |cs[0].text|, txt[|cs[0].text|..], doc, limit, env)
  }

  lemma {:induction false} GoodLeavesConcat(a: seq<Chunk>, b: seq<Chunk>, base: int, t: string, u: string, doc: Option<Document>, limit: int, env: Env)
    requires GoodLeaves(a, base, t, doc, limit, env) && GoodLeaves(b, base + |t|, u, doc, limit, env)
    ensures GoodLeaves(a + b, base, t + u, doc, limit, env)
    decreases |a|
  {
    if a == [] {
      assert a + b == b && t + u == u;
    } else {
      var k := |a[0].text|;
      assert (a + b)[1..] == a[1..] + b;
      assert (t + u)[k..] == t[k..] + u;
      assert (t + u)[..k] == t[..k];
      GoodLeavesConcat(a[1..], b, base + k, t[k..], u, doc, limit, env);
      assert (a + b)[0] == a[0];
      assert GoStrings.HasPrefix(t + u, a[0].text);
    }
  }

  /** GoodLeaves is a tiling of leaves of `doc` within the limit. */
  lemma {:induction false} GoodLeavesMeans(cs: seq<Chunk>, base: int, txt: string, doc: Option<Document>, limit: int, env: Env)
    requires GoodLeaves(cs, base, txt, doc, limit, env)
    ensures TilesFrom(cs, base, txt) && AllOf(cs, doc) && LeavesWithin(cs, limit, env)
    decreases |cs|
  {
    if cs != [] {
      var k := |cs[0].text|;
      GoodLeavesMeans(cs[1..], base + k, txt[k..], doc, limit, env);
      assert forall j :: 1 <= j < |cs| ==> cs[j] == cs[1..][j - 1];
    }
  }

  /**
   * The leaves of a split tile the parent's byte range in order, belong to
   * its document, and each passed the byte or the token test.
   */
  lemma {:induction false} SplitChunkTiles(c: Chunk, limit: int, env: Env)
    requires limit > 0 && c.length == |c.text|
    ensures var r := SplitChunk(c, limit, env);
      r.Pieces? ==> GoodLeaves(r.chunks, c.offset, c.text, c.document, limit, env)
    decreases |c.text|, 1
  {
    if c.length < limit || env.tokens(c.text) < limit {
      assert c.text[|c.text|..] == [];
      assert [c][1..] == [];
    } else {
      var n := CeilDiv(env.tokens(c.text), limit);
      var size := CeilDiv(c.length, n);
      CeilDivBounds(env.tokens(c.text), limit);
      CeilDivBounds(c.length, n);
      if size < c.length {
        SplitPiecesTiles(c, limit, env, n, size, 0);
        assert c.text[0..] == c.text;
      }
    }
  }

  /** `left` ranges of `size` from `start` cover `n` bytes: so do the `left - 1` ranges after the first. */
  lemma RangesStillCover(start: nat, left: nat, size: nat, n: nat)
    requires left > 0 && start + left * size >= n
    ensures (start + size) + (left - 1) * size >= n
  {
    assert left * size == (left - 1) * size + size;
  }

  lemma {:induction false} SplitPiecesTiles(c: Chunk, limit: int, env: Env, left: nat, size: nat, start: nat)
    requires limit > 0 && c.length == |c.text| && 0 < size < |c.text|
    requires start + left * size >= c.length
    ensures var r := SplitPieces(c, limit, env, left, size, start); var from := Clip(start, c.length);
      r.Pieces? ==> GoodLeaves(r.chunks, c.offset + from, c.text[from..], c.document, limit, env)
    decreases |c.text|, 0, left, 1
  {
    if left == 0 {
      assert start >= c.length && c.text[Clip(start, c.length)..] == [];
    } else if SplitPieces(c, limit, env, left, size, start).Pieces? {
      RangesStillCover(start, left, size, c.length);
      SplitPiecesTiles(c, limit, env, left - 1, size, start + size);
      PiecesTilesStep(c, limit, env, left, size, start);
    }
  }

  /** SplitPiecesTiles for `left` ranges, given it for the ranges after the next one. */
  lemma PiecesTilesStep(c: Chunk, limit: int, env: Env, left: nat, size: nat, start: nat)
    requires limit > 0 && c.length == |c.text| && 0 < size < |c.text| && left > 0
    requires SplitPieces(c, limit, env, left, size, start).Pieces?
    requires var r := SplitPieces(c, limit, env, left - 1, size, start + size); var from := Clip(start + size, c.length);
      r.Pieces? ==> GoodLeaves(r.chunks, c.offset + from, c.text[from..], c.document, limit, env)
    ensures var r := SplitPieces(c, limit, env, left, size, start); var from := Clip(start, c.length);
      GoodLeaves(r.chunks, c.offset + from, c.text[from..], c.document, limit, env)
    decreases |c.text|, 0, left, 0
  {
    SplitPiecesUnfold(c, limit, env, left, size, start);
    RangeTiles(c, limit, env, start, Clip(start + size, c.length));
    PiecesStep(c, limit, env, left, size, start);
  }

  /** The induction step of SplitPiecesTiles, given the leaves of the next range and of the ranges after it. */
  lemma PiecesStep(c: Chunk, limit: int, env: Env, left: nat, size: nat, start: nat)
    requires limit > 0 && c.length == |c.text| && 0 < size < |c.text| && left > 0
    requires SplitPieces(c, limit, env, left, size, start).Pieces?
    requires start <= Clip(start + size, c.length)
    requires
      var end := Clip(start + size, c.length);
      SplitRange(c, limit, env, start, end).Pieces? ==>
      GoodLeaves(SplitRange(c, limit, env, start, end).chunks, c.offset + start, c.text[start..end], c.document, limit, env)
    requires var r := SplitPieces(c, limit, env, left - 1, size, start + size); var from := Clip(start + size, c.length);
      r.Pieces? ==> GoodLeaves(r.chunks, c.offset + from, c.text[from..], c.document, limit, env)
    ensures var r := SplitPieces(c, limit, env, left, size, start); var from := Clip(start, c.length);
      GoodLeaves(r.chunks, c.offset + from, c.text[from..], c.document, limit, env)
  {
    SplitPiecesUnfold(c, limit, env, left, size, start);
    var end := Clip(start + size, c.length);
    Assemble(SplitPieces(c, limit, env, left, size, start), SplitRange(c, limit, env, start, end),
             SplitPieces(c, limit, env, left - 1, size, start + size),
             c.offset, c.text, start, end, c.document, limit, env);
  }

  /** The split of the range [start, end) of `c`, as splitChunk's loop makes it. */
  function SplitRange(c: Chunk, limit: int, env: Env, start: nat, end: nat): Split
    requires limit > 0 && start <= end <= |c.text| && end - start < |c.text|
    decreases |c.text|, 0, 0
  {
    SplitChunk(NewChunk(c.document, c.offset + start, end - start, c.text[start..end], env), limit, env)
  }

  lemma RangeTiles(c: Chunk, limit: int, env: Env, start: nat, end: nat)
    requires limit > 0 && start <= end <= |c.text| && end - start < |c.text|
    decreases |c.text|, 0, 0
    ensures SplitRange(c, limit, env, start, end).Pieces? ==>
      GoodLeaves(SplitRange(c, limit, env, start, end).chunks, c.offset + start, c.text[start..end], c.document, limit, env)
  {
    SplitChunkTiles(NewChunk(c.document, c.offset + start, end - start, c.text[start..end], env), limit, env);
  }

  /** One step of the range loop: a successful split of the next range is its leaves followed by those of the later ranges. */
  lemma SplitPiecesUnfold(c: Chunk, limit: int, env: Env, left: nat, size: nat, start: nat)
    requires limit > 0 && c.length == |c.text| && 0 < size < |c.text| && left > 0
    requires SplitPieces(c, limit, env, left, size, start).Pieces?
    ensures start <= Clip(start + size, c.length)
    ensures SplitPieces(c, limit, env, left, size, start)
         == Combine(SplitRange(c, limit, env, start, Clip(start + size, c.length)), SplitPieces(c, limit, env, left - 1, size, start + size))
    ensures Clip(start, c.length) == start
  {
  }

  /** The leaves of range [start, end) followed by those from `end` on are the leaves from `start` on. */
  lemma Assemble(r: Split, r1: Split, r2: Split, base: int, txt: string, start: nat, end: nat,
                 doc: Option<Document>, limit: int, env: Env)
    requires start <= end <= |txt| && r == Combine(r1, r2) && r.Pieces?
    requires GoodLeaves(r1.chunks, base + start, txt[start..end], doc, limit, env)
    requires GoodLeaves(r2.chunks, base + end, txt[end..], doc, limit, env)
    ensures GoodLeaves(r.chunks, base + start, txt[start..], doc, limit, env)
  {
    GoodLeavesConcat(r1.chunks, r2.chunks, base + start, txt[start..end], txt[end..], doc, limit, env);
    assert txt[start..end] + txt[end..] == txt[start..];
  }

  /** With token counts bounded by length, every leaf is strictly below the token limit. */
  lemma LeavesUnderTokenLimit(cs: seq<Chunk>, limit: int, env: Env)
    requires TokensAtMostLength(env) && LeavesWithin(cs, limit, env)
    requires forall k :: 0 <= k < |cs| ==> cs[k].length == |cs[k].text|
    ensures forall k :: 0 <= k < |cs| ==> env.tokens(cs[k].text) < limit
  {
    forall k | 0 <= k < |cs| ensures env.tokens(cs[k].text) < limit {
      assert env.tokens(cs[k].text) <= |cs[k].text|;
    }
  }

  /** A chunk of at least `limit` bytes whose token count equals the limit gives numChunks 1: the recursion has no bound. */
  lemma SplitChunkDivergesAtLimit(c: Chunk, limit: int, env: Env)
    requires limit > 0 && c.length == |c.text|
    requires c.length >= limit && env.tokens(c.text) == limit
    ensures SplitChunk(c, limit, env) == Diverges
  {
    assert CeilDiv(limit, limit) == 1;
    CeilDivBounds(c.length, 1);
  }

  /**
   * With limit 1, a 5-character chunk of 4 tokens is cut into 4 ranges of 2
   * characters; the fourth starts at 6, past the end, and the slice panics.
   */
  lemma SplitChunkSlicesPastEnd()
    ensures var env := Env(s => if |s| == 5 then 4 else 0, s => [], (p, t) => "");
      TokensAtMostLength(env)
      && SplitChunk(Chunk(None, 0, 5, "", "abcde", None, false), 1, env).Panics?
  {
    var env := Env(s => if |s| == 5 then 4 else 0, s => [], (p, t) => "");
    var c := Chunk(None, 0, 5, "", "abcde", None, false);
    CeilDivBounds(4, 1);
    assert CeilDiv(5, 4) == 1 + CeilDiv(1, 4) == 2;
    assert SplitPieces(c, 1, env, 1, 2, 6).Panics?;
    var s2 := NewChunk(None, 4, 1, "e", env);
    assert c.text[4..5] == "e";
    assert SplitChunk(s2, 1, env) == Pieces([s2]);
    assert SplitPieces(c, 1, env, 2, 2, 4).Panics?;
    var s1 := NewChunk(None, 2, 2, "cd", env);
    assert c.text[2..4] == "cd";
    assert SplitChunk(s1, 1, env) == Pieces([s1]);
    assert SplitPieces(c, 1, env, 3, 2, 2).Panics?;
    var s0 := NewChunk(None, 0, 2, "ab", env);
    assert c.text[0..2] == "ab";
    assert SplitChunk(s0, 1, env) == Pieces([s0]);
    assert SplitPieces(c, 1, env, 4, 2, 0).Panics?;
  }

  // ---------------------------------------------------------------- chunksFromString

  /** Splits every paragraph in turn; the first one that diverges or panics decides the outcome. */
  function SplitAll(ps: seq<Chunk>, limit: int, env: Env): (r: Split)
    requires limit > 0 && forall k :: 0 <= k < |ps| ==> ps[k].length == |ps[k].text|
  {
    if ps == [] then Pieces([])
    else Combine(SplitChunk(ps[0], limit, env), SplitAll(ps[1..], limit, env))
  }

  /** What chunksFromString yields for a document's text. */
  function ChunksOf(doc: Option<Document>, txt: string, limit: int, env: Env): Split
  {
    if limit <= 0 then Panics("assertion failed: tokenLimit > 0")
    else
      var ps := Paragraphs(doc, txt, "\n\n", 0, 0, env);
      ParagraphsGood(doc, txt, "\n\n", env);
      TilesLengths(ps, 0, txt);
      SplitAll(ps, limit, env)
  }

  /** In a tiling each Length is its text's length. */
  lemma {:induction false} TilesLengths(cs: seq<Chunk>, base: int, txt: string)
    requires TilesFrom(cs, base, txt)
    ensures forall k :: 0 <= k < |cs| ==> cs[k].length == |cs[k].text|
    decreases |cs|
  {
    if cs != [] {
      TilesLengths(cs[1..], base + |cs[0].text|, txt[|cs[0].text|..]);
      assert forall k :: 1 <= k < |cs| ==> cs[k] == cs[1..][k - 1];
    }
  }

  /** The leaves of a tiling's chunks, split in turn, tile the same text. */
  lemma {:induction false} SplitAllTiles(ps: seq<Chunk>, base: int, txt: string, limit: int, env: Env, doc: Option<Document>)
    requires limit > 0 && TilesFrom(ps, base, txt) && AllOf(ps, doc)
    requires forall k :: 0 <= k < |ps| ==> ps[k].length == |ps[k].text|
    ensures var r := SplitAll(ps, limit, env);
      r.Pieces? ==> GoodLeaves(r.chunks, base, txt, doc, limit, env)
    decreases |ps|
  {
    var r := SplitAll(ps, limit, env);
    if ps != [] && r.Pieces? {
      var k := |ps[0].text|;
      var r1 := SplitChunk(ps[0], limit, env);
      var r2 := SplitAll(ps[1..], limit, env);
      assert forall j :: 1 <= j < |ps| ==> ps[j] == ps[1..][j - 1];
      SplitChunkTiles(ps[0], limit, env);
      SplitAllTiles(ps[1..], base + k, txt[k..], limit, env, doc);
      GoodLeavesConcat(r1.chunks, r2.chunks, base, txt[..k], txt[k..], doc, limit, env);
      assert txt[..k] + txt[k..] == txt;
    }
  }

  /** chunksFromString's leaves tile the whole text, belong to the document and are within the limit. */
  lemma ChunksOfTile(doc: Option<Document>, txt: string, limit: int, env: Env)
    ensures var r := ChunksOf(doc, txt, limit, env);
      r.Pieces? ==> TilesFrom(r.chunks, 0, txt) && AllOf(r.chunks, doc) && LeavesWithin(r.chunks, limit, env)
  {
    var r := ChunksOf(doc, txt, limit, env);
    if limit > 0 && r.Pieces? {
      var ps := Paragraphs(doc, txt, "\n\n", 0, 0, env);
      ParagraphsGood(doc, txt, "\n\n", env);
      TilesLengths(ps, 0, txt);
      SplitAllTiles(ps, 0, txt, limit, env, doc);
      GoodLeavesMeans(r.chunks, 0, txt, doc, limit, env);
    }
  }

  /** Prepends already-split leaves to an outcome. */
  function Prepend(acc: seq<Chunk>, r: Split): Split
  {
    match r
    case Pieces(b) => Pieces(acc + b)
    case other => other
  }

  lemma SplitAllStep(ps: seq<Chunk>, k: nat, limit: int, env: Env)
    requires limit > 0 && forall j :: 0 <= j < |ps| ==> ps[j].length == |ps[j].text|
    requires k < |ps|
    ensures SplitAll(ps[k..], limit, env) == Combine(SplitChunk(ps[k], limit, env), SplitAll(ps[k + 1..], limit, env))
  {
    assert ps[k..][1..] == ps[k + 1..];
  }

  lemma PrependAssoc(acc: seq<Chunk>, a: seq<Chunk>, r: Split)
    ensures Prepend(acc, Combine(Pieces(a), r)) == Prepend(acc + a, r)
  {
    if r.Pieces? {
      assert acc + (a + r.chunks) == (acc + a) + r.chunks;
    }
  }

  /**
   * chunksFromString: splits the text into paragraphs and each paragraph with
   * splitChunk, concatenating the leaves in order.
   */
  method ChunksFromString(doc: Option<Document>, txt: string, limit: int, env: Env) returns (r: Split)
    ensures r == ChunksOf(doc, txt, limit, env)
    ensures r.Pieces? ==> TilesFrom(r.chunks, 0, txt) && AllOf(r.chunks, doc) && LeavesWithin(r.chunks, limit, env)
  {
    ChunksOfTile(doc, txt, limit, env);
    if limit <= 0 {
      return Panics("assertion failed: tokenLimit > 0");
    }
    var paragraphs := SplitIntoChunks(doc, txt, "\n\n", env);
    TilesLengths(paragraphs, 0, txt);
    var acc: seq<Chunk> := [];
    var k := 0;
    while k < |paragraphs|
      invariant 0 <= k <= |paragraphs|
      invariant Prepend(acc, SplitAll(paragraphs[k..], limit, env)) == SplitAll(paragraphs, limit, env)
    {
      var sub := SplitChunk(paragraphs[k], limit, env);
      SplitAllStep(paragraphs, k, limit, env);
      if !sub.Pieces? {
        return sub;
      }
      PrependAssoc(acc, sub.chunks, SplitAll(paragraphs[k + 1..], limit, env));
      acc := acc + sub.chunks;
      k := k + 1;
    }
    assert paragraphs[k..] == [];
    assert acc + [] == acc;
    return Pieces(acc);
  }

  // ---------------------------------------------------------------- the leaves as new chunks

  /** The chunk is as NewChunk builds it from its own fields: no embedding, not stale, the hash of its text. */
  predicate Fresh(c: Chunk, env: Env)
  {
    c == NewChunk(c.document, c.offset, c.length, c.text, env)
  }

  /** Every chunk of `cs` is Fresh. */
  predicate AllFresh(cs: seq<Chunk>, env: Env)
  {
    forall k :: 0 <= k < |cs| ==> Fresh(cs[k], env)
  }

  lemma AllFreshConcat(a: seq<Chunk>, b: seq<Chunk>, env: Env)
    requires AllFresh(a, env) && AllFresh(b, env)
    ensures AllFresh(a + b, env)
  {
    assert forall k :: |a| <= k < |a + b| ==> (a + b)[k] == b[k - |a|];
  }

  lemma NonEmptyConcat(a: seq<Chunk>, b: seq<Chunk>)
    requires NonEmptyTexts(a) && NonEmptyTexts(b)
    ensures NonEmptyTexts(a + b)
  {
    assert forall k :: |a| <= k < |a + b| ==> (a + b)[k] == b[k - |a|];
  }

  /** Every paragraph is a chunk as NewChunk makes it. */
  lemma {:induction false} ParagraphsFresh(doc: Option<Document>, txt: string, dlen: nat, isCut: nat -> bool, start: nat, i: nat, env: Env)
    requires start <= i <= |txt|
    ensures AllFresh(ParagraphsBy(doc, txt, dlen, isCut, start, i, env), env)
    decreases |txt| - i
  {
    if i >= |txt| - dlen {
    } else if !isCut(i) || start == i + dlen {
      ParagraphsFresh(doc, txt, dlen, isCut, start, i + 1, env);
    } else {
      var e := i + dlen;
      ParagraphsFresh(doc, txt, dlen, isCut, e, e + 1, env);
      AllFreshConcat([NewChunk(doc, start, e - start, txt[start..e], env)], ParagraphsBy(doc, txt, dlen, isCut, e, e + 1, env), env);
    }
  }

  /** Splitting a Fresh chunk yields Fresh leaves: the chunk itself, or sub-chunks made by NewChunk. */
  lemma {:induction false} SplitChunkFresh(c: Chunk, limit: int, env: Env)
    requires limit > 0 && c.length == |c.text| && Fresh(c, env)
    ensures var r := SplitChunk(c, limit, env); r.Pieces? ==> AllFresh(r.chunks, env)
    decreases |c.text|, 1
  {
    if c.length >= limit && env.tokens(c.text) >= limit {
      var n := CeilDiv(env.tokens(c.text), limit);
      var size := CeilDiv(c.length, n);
      if size < c.length {
        SplitPiecesFresh(c, limit, env, n, size, 0);
      }
    }
  }

  lemma {:induction false} SplitPiecesFresh(c: Chunk, limit: int, env: Env, left: nat, size: nat, start: nat)
    requires limit > 0 && c.length == |c.text| && 0 < size < |c.text|
    ensures var r := SplitPieces(c, limit, env, left, size, start); r.Pieces? ==> AllFresh(r.chunks, env)
    decreases |c.text|, 0, left
  {
    if left > 0 && SplitPieces(c, limit, env, left, size, start).Pieces? {
      SplitPiecesUnfold(c, limit, env, left, size, start);
      var end := Clip(start + size, c.length);
      var sub := NewChunk(c.document, c.offset + start, end - start, c.text[start..end], env);
      SplitChunkFresh(sub, limit, env);
      SplitPiecesFresh(c, limit, env, left - 1, size, start + size);
      AllFreshConcat(SplitRange(c, limit, env, start, end).chunks, SplitPieces(c, limit, env, left - 1, size, start + size).chunks, env);
    }
  }

  lemma {:induction false} SplitAllFresh(ps: seq<Chunk>, limit: int, env: Env)
    requires limit > 0 && forall k :: 0 <= k < |ps| ==> ps[k].length == |ps[k].text|
    requires AllFresh(ps, env)
    ensures var r := SplitAll(ps, limit, env); r.Pieces? ==> AllFresh(r.chunks, env)
    decreases |ps|
  {
    if ps != [] && SplitAll(ps, limit, env).Pieces? {
      SplitChunkFresh(ps[0], limit, env);
      assert forall j :: 1 <= j < |ps| ==> ps[j] == ps[1..][j - 1];
      SplitAllFresh(ps[1..], limit, env);
      AllFreshConcat(SplitChunk(ps[0], limit, env).chunks, SplitAll(ps[1..], limit, env).chunks, env);
    }
  }

  /** chunksFromString's leaves are chunks as NewChunk makes them: no embedding, not stale, hashed. */
  lemma ChunksOfFresh(doc: Option<Document>, txt: string, limit: int, env: Env)
    ensures var r := ChunksOf(doc, txt, limit, env); r.Pieces? ==> AllFresh(r.chunks, env)
  {
    if limit > 0 {
      var ps := Paragraphs(doc, txt, "\n\n", 0, 0, env);
      ParagraphsGood(doc, txt, "\n\n", env);
      TilesLengths(ps, 0, txt);
      ParagraphsFresh(doc, txt, 2, CutsOf(txt, "\n\n"), 0, 0, env);
      SplitAllFresh(ps, limit, env);
    }
  }

  /**
   * When no range of splitChunk can start at or past the end: a chunk is cut
   * into n = ceil(t/limit) ranges of size = ceil(L/n) bytes, and the last
   * starts at (n-1)*size. That start reaches L only if n > size > limit,
   * which needs L > limit*limit.
   */
  lemma RangesStartInside(len: nat, t: nat, limit: nat, n: nat, size: nat)
    requires 0 < limit <= t <= len <= limit * limit
    requires n * limit >= t && (n - 1) * limit < t
    requires size * n >= len && (size - 1) * n < len
    ensures (n - 1) * size < len
  {
    if (n - 1) * size >= len {
      FewerRangesThanBytes(n, size, len);
      RangesLargerThanLimit(limit, n, size, t, len);
      SquareBelow(limit, n - 1);
      assert false;
    }
  }

  lemma SquareBelow(limit: nat, m: nat)
    requires m >= limit + 1
    ensures m * limit >= limit * limit + limit
  {
    MulMono(limit + 1, m, limit);
  }

  lemma FewerRangesThanBytes(n: nat, size: nat, len: nat)
    requires (size - 1) * n < len <= (n - 1) * size
    ensures size < n
  {
    assert (size - 1) * n == size * n - n;
    assert (n - 1) * size == size * n - size;
  }

  lemma RangesLargerThanLimit(limit: nat, n: nat, size: nat, t: nat, len: nat)
    requires n >= 1 && (n - 1) * limit < t <= len <= (n - 1) * size
    ensures limit < size
  {
    if size <= limit {
      MulMono(size, limit, n - 1);
    }
  }

  lemma {:induction false} MulMono(a: int, b: int, c: nat)
    requires a <= b
    ensures a * c <= b * c
    decreases c
  {
    if c > 0 {
      MulMono(a, b, c - 1);
      assert a * c == a * (c - 1) + a && b * c == b * (c - 1) + b;
    }
  }

  /**
   * With token counts bounded by length and a chunk of at most limit*limit
   * bytes, splitting never slices past the end and never makes an empty
   * leaf: every range starts inside the chunk.
   */
  lemma {:induction false} SplitChunkNonEmpty(c: Chunk, limit: int, env: Env)
    requires limit > 0 && c.length == |c.text| && c.text != []
    requires TokensAtMostLength(env) && |c.text| <= limit * limit
    ensures var r := SplitChunk(c, limit, env); !r.Panics? && (r.Pieces? ==> NonEmptyTexts(r.chunks))
    decreases |c.text|, 1
  {
    var t := env.tokens(c.text);
    if c.length >= limit && t >= limit {
      var n := CeilDiv(t, limit);
      var size := CeilDiv(c.length, n);
      CeilDivBounds(t, limit);
      CeilDivBounds(c.length, n);
      if size < c.length {
        assert t <= |c.text|;
        RangesStartInside(c.length, t, limit, n, size);
        SplitPiecesNonEmpty(c, limit, env, n, size, 0);
      }
    }
  }

  lemma {:induction false} SplitPiecesNonEmpty(c: Chunk, limit: int, env: Env, left: nat, size: nat, start: nat)
    requires limit > 0 && c.length == |c.text| && 0 < size < |c.text|
    requires TokensAtMostLength(env) && |c.text| <= limit * limit
    requires left > 0 ==> start + (left - 1) * size < |c.text|
    ensures var r := SplitPieces(c, limit, env, left, size, start); !r.Panics? && (r.Pieces? ==> NonEmptyTexts(r.chunks))
    decreases |c.text|, 0, left
  {
    if left > 0 {
      NextStartInside(start, left, size, c.length);
      var end := Clip(start + size, c.length);
      RangeNonEmpty(c, limit, env, start, end);
      SplitPiecesNonEmpty(c, limit, env, left - 1, size, start + size);
      var r1 := SplitRange(c, limit, env, start, end);
      var r2 := SplitPieces(c, limit, env, left - 1, size, start + size);
      if r1.Pieces? && r2.Pieces? {
        NonEmptyConcat(r1.chunks, r2.chunks);
      }
    }
  }

  /** The range starts inside the chunk, and so do the ranges after it. */
  lemma NextStartInside(start: nat, left: nat, size: nat, n: nat)
    requires left > 0 && start + (left - 1) * size < n
    ensures start < n
    ensures left - 1 > 0 ==> (start + size) + (left - 1 - 1) * size < n
  {
    assert (left - 1) * size >= 0;
    assert (start + size) + (left - 1 - 1) * size == start + (left - 1) * size;
  }

  lemma RangeNonEmpty(c: Chunk, limit: int, env: Env, start: nat, end: nat)
    requires limit > 0 && start < end <= |c.text| && end - start < |c.text|
    requires TokensAtMostLength(env) && |c.text| <= limit * limit
    ensures var r := SplitRange(c, limit, env, start, end); !r.Panics? && (r.Pieces? ==> NonEmptyTexts(r.chunks))
    decreases |c.text|, 0, 0
  {
    SplitChunkNonEmpty(NewChunk(c.document, c.offset + start, end - start, c.text[start..end], env), limit, env);
  }

  lemma {:induction false} SplitAllNonEmpty(ps: seq<Chunk>, limit: int, env: Env)
    requires limit > 0 && forall k :: 0 <= k < |ps| ==> ps[k].length == |ps[k].text|
    requires TokensAtMostLength(env)
    requires forall k :: 0 <= k < |ps| ==> ps[k].text != [] && |ps[k].text| <= limit * limit
    ensures var r := SplitAll(ps, limit, env); !r.Panics? && (r.Pieces? ==> NonEmptyTexts(r.chunks))
    decreases |ps|
  {
    if ps != [] {
      SplitChunkNonEmpty(ps[0], limit, env);
      assert forall j :: 1 <= j < |ps| ==> ps[j] == ps[1..][j - 1];
      SplitAllNonEmpty(ps[1..], limit, env);
      var r1 := SplitChunk(ps[0], limit, env);
      var r2 := SplitAll(ps[1..], limit, env);
      if r1.Pieces? && r2.Pieces? {
        NonEmptyConcat(r1.chunks, r2.chunks);
      }
    }
  }

  /**
   * With token counts bounded by length, a text of at most limit*limit bytes
   * (64 MiB at the embedding limit of 8192) is split without a panic into
   * non-empty leaves, or not at all.
   */
  lemma ChunksOfNonEmpty(doc: Option<Document>, txt: string, limit: int, env: Env)
    requires limit > 0 && TokensAtMostLength(env) && |txt| <= limit * limit
    ensures var r := ChunksOf(doc, txt, limit, env); !r.Panics? && (r.Pieces? ==> NonEmptyTexts(r.chunks))
  {
    var ps := Paragraphs(doc, txt, "\n\n", 0, 0, env);
    ParagraphsGood(doc, txt, "\n\n", env);
    TilesLengths(ps, 0, txt);
    forall k | 0 <= k < |ps|
      ensures |ps[k].text| <= limit * limit
    {
      TilesLocate(ps, 0, txt, k);
    }
    SplitAllNonEmpty(ps, limit, env);
  }

  /**
   * Past that bound splitChunk can make an empty leaf: with limit 3, a
   * 16-character chunk of 13 tokens is cut into 5 ranges of 4 characters,
   * and the fifth, [16, 16), is empty.
   */
  lemma SplitChunkEmptyLeaf()
    ensures var env := Env(s => if |s| == 16 then 13 else 0, s => [], (p, t) => "");
      var r := SplitChunk(Chunk(None, 0, 16, "", "abcdefghijklmnop", None, false), 3, env);
      TokensAtMostLength(env) && r.Pieces? && |r.chunks| == 5 && r.chunks[4].offset == 16 && r.chunks[4].text == ""
  {
    var env := Env(s => if |s| == 16 then 13 else 0, s => [], (p, t) => "");
    var c := Chunk(None, 0, 16, "", "abcdefghijklmnop", None, false);
    assert CeilDiv(13, 3) == 5 by {
      assert CeilDiv(1, 3) == 1;
      assert CeilDiv(4, 3) == 2;
      assert CeilDiv(7, 3) == 3;
      assert CeilDiv(10, 3) == 4;
    }
    assert CeilDiv(16, 5) == 4 by {
      assert CeilDiv(1, 5) == 1;
      assert CeilDiv(6, 5) == 2;
      assert CeilDiv(11, 5) == 3;
    }
    var e := NewChunk(None, 16, 0, "", env);
    assert c.text[16..16] == "";
    assert SplitChunk(e, 3, env) == Pieces([e]);
    assert SplitPieces(c, 3, env, 1, 4, 16) == Pieces([e]);
    var s3 := NewChunk(None, 12, 4, "mnop", env);
    assert c.text[12..16] == "mnop";
    assert SplitChunk(s3, 3, env) == Pieces([s3]);
    assert SplitPieces(c, 3, env, 2, 4, 12) == Pieces([s3, e]);
    var s2 := NewChunk(None, 8, 4, "ijkl", env);
    assert c.text[8..12] == "ijkl";
    assert SplitChunk(s2, 3, env) == Pieces([s2]);
    assert SplitPieces(c, 3, env, 3, 4, 8) == Pieces([s2, s3, e]);
    var s1 := NewChunk(None, 4, 4, "efgh", env);
    assert c.text[4..8] == "efgh";
    assert SplitChunk(s1, 3, env) == Pieces([s1]);
    assert SplitPieces(c, 3, env, 4, 4, 4) == Pieces([s1, s2, s3, e]);
    var s0 := NewChunk(None, 0, 4, "abcd", env);
    assert c.text[0..4] == "abcd";
    assert SplitChunk(s0, 3, env) == Pieces([s0]);
    assert SplitPieces(c, 3, env, 5, 4, 0) == Pieces([s0, s1, s2, s3, e]);
  }

  // ---------------------------------------------------------------- ChunkText

  /**
   * ChunkText: a chunk without a document returns its own text (which must
   * not be empty); otherwise the document's current file content in the
   * chunk's range, clipped to the file, and nothing at all when the file is gone.
   */
  function ChunkText(c: Chunk, withHeader: bool, files: map<string, string>): (r: Result<string>)
    ensures c.document.None? ==> (r.Ok? <==> c.text != "") && (r.Ok? ==> r.value == c.text)
    ensures c.document.Some? ==> r.Ok?
    ensures c.document.Some? && c.document.value.relPath !in files ==> r == Ok("")
    ensures c.document.Some? && c.document.value.relPath in files
            && c.offset + c.length <= |files[c.document.value.relPath]|
            && files[c.document.value.relPath][c.offset..c.offset + c.length] == c.text
            ==> r == Ok(if withHeader then PrefixedText(c.document.value.relPath, c.text) else c.text)
  {
    if c.document.None? then
      if c.text != "" then Ok(c.text) else Err("ChunkText: c.Document == nil && c.text == \"\"")
    else if c.document.value.relPath !in files then Ok("")
    else
      var buf := files[c.document.value.relPath];
      var stop := if c.offset + c.length > |buf| then |buf| else c.offset + c.length;
      var text := if c.offset < |buf| then buf[c.offset..stop] else "";
      assert c.offset + c.length <= |buf| && c.length > 0 ==> c.offset < |buf|;
      Ok(if withHeader then PrefixedText(c.document.value.relPath, text) else text)
  }
}
