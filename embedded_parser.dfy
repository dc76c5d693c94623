/**
 * The parser of the embedded-file format (tdaid/examples/embeddedFile/parser.go)
 * over the lexer's tokens: top-level text and `File:` blocks, each block
 * running to its `EOF_` line or to the end of the input.
 *
 * The parse is first stated on a token list (`RootLoop`, `FileLoop`; past the
 * end of the list every token is EOF, as the lexer yields EOF forever), and
 * proved equal to reference definitions: a block's content and language in
 * terms of the fences before each token, and text nodes as the joined runs
 * of consecutive Text tokens. The `Parser` class buffers the tokens it draws
 * from a `Lexer` and is proved to parse the lexer's token list.
 */
module EmbeddedParser {
  import opened Wrappers
  import opened GoStrings
  import opened EmbeddedLexer

  /** The token at index k of the stream `ts`, and EOF past its end. */
  function Tok(ts: seq<Token>, k: nat): (t: Token)
  {
    if k < |ts| then ts[k] else Token(EOF, "")
  }

  /** A child of the root: a text node or a file node. */
  datatype Child = TextChild(content: string) | FileChild(name: string, content: string, language: string)

  /** What `parseFile` builds and the stream index it leaves the parser at. */
  datatype FileResult = FileResult(name: string, content: string, language: string, end: nat)

  /** A token that ends a file block: `EOF_` or the end of the input. */
  predicate EndsFile(t: Token)
  {
    t.kind == FileEnd || t.kind == EOF
  }

  /**
   * The loop of `parseFile` from index k, with the content and the language
   * collected so far and whether a fenced code block is open.
   */
  function FileLoop(ts: seq<Token>, k: nat, content: string, language: string, inCode: bool): (r: FileResult)
    ensures k <= r.end && (k <= |ts| ==> r.end <= |ts|)
    decreases |ts| - k
  {
    var t := Tok(ts, k);
    if t.kind == FileEnd then FileResult(t.data, content, language, k + 1)
    else if t.kind == EOF then FileResult("", content, language, k)
    else if t.kind == TripleBacktick && !inCode then FileLoop(ts, k + 1, content, t.data, true)
    else
      var open := if t.kind == TripleBacktick then false else inCode;
      var add := t.kind == Text || (!open && t.kind != TripleBacktick);
      FileLoop(ts, k + 1, if add then content + (t.data + "\n") else content, language, open)
  }

  /** `parseFile` at index k: the token there (the `File:` line) is consumed, then the loop runs. */
  function FileAt(ts: seq<Token>, k: nat): (r: FileResult)
    ensures k < r.end && (k < |ts| ==> r.end <= |ts|)
  {
    FileLoop(ts, k + 1, "", "", false)
  }

  /**
   * The loop of `parseRoot` from index k, with the children built so far;
   * `merging` says that the last child is the text node later Text tokens
   * are appended to.
   */
  function RootLoop(ts: seq<Token>, k: nat, acc: seq<Child>, merging: bool): (r: (seq<Child>, nat))
    requires merging ==> acc != [] && acc[|acc| - 1].TextChild?
    decreases |ts| - k
  {
    var t := Tok(ts, k);
    if t.kind == EOF then (acc, k)
    else if t.kind == Text then
      if merging then
        RootLoop(ts, k + 1, acc[..|acc| - 1] + [TextChild(acc[|acc| - 1].content + "\n" + t.data)], true)
      else
        RootLoop(ts, k + 1, acc + [TextChild(t.data)], true)
    else if t.kind == FileStart then
      var f := FileAt(ts, k);
      RootLoop(ts, f.end, acc + [FileChild(f.name, f.content, f.language)], false)
    else RootLoop(ts, k + 1, acc, false)
  }

  /** What `parseRoot` builds from index k, and the index of the EOF it stops at. */
  function RootOf(ts: seq<Token>, k: nat): (seq<Child>, nat)
  {
    RootLoop(ts, k, [], false)
  }

  // ---- Reference definitions for a file block ----

  /** The first index at or after k whose token ends a file block. */
  function FileStop(ts: seq<Token>, k: nat): (s: nat)
    ensures k <= s && EndsFile(Tok(ts, s)) && (k <= |ts| ==> s <= |ts|)
    ensures forall j :: k <= j < s ==> !EndsFile(Tok(ts, j))
    decreases |ts| - k
  {
    if EndsFile(Tok(ts, k)) then k else FileStop(ts, k + 1)
  }

  /** The number of fence tokens at indices k up to j. */
  function Fences(ts: seq<Token>, k: nat, j: nat): nat
    decreases j
  {
    if j <= k then 0 else Fences(ts, k, j - 1) + (if Tok(ts, j - 1).kind == TripleBacktick then 1 else 0)
  }

  /** A code block opened at or after k is open at j: an odd number of fences lie between. */
  predicate InCode(ts: seq<Token>, k: nat, j: nat)
  {
    Fences(ts, k, j) % 2 == 1
  }

  /** What token j adds to the content of a block that starts at k: a fence nothing, Text its line, anything else its line outside code. */
  function Contribution(ts: seq<Token>, k: nat, j: nat): string
  {
    var t := Tok(ts, j);
    if t.kind != TripleBacktick && (t.kind == Text || !InCode(ts, k, j)) then t.data + "\n" else ""
  }

  /** The content of a block that starts at k, from the tokens up to j. */
  function ContentBetween(ts: seq<Token>, k: nat, j: nat): string
    decreases j
  {
    if j <= k then "" else ContentBetween(ts, k, j - 1) + Contribution(ts, k, j - 1)
  }

  /** The data of the last fence before j that opens a code block, or empty when there is none. */
  function LastOpening(ts: seq<Token>, k: nat, j: nat): string
    decreases j
  {
    if j <= k then ""
    else if Tok(ts, j - 1).kind == TripleBacktick && !InCode(ts, k, j - 1) then Tok(ts, j - 1).data
    else LastOpening(ts, k, j - 1)
  }

  /**
   * The file block whose body starts at k, by the reference definitions: it
   * runs to the first `EOF_` or EOF; an `EOF_` names it and is consumed, EOF
   * is not and leaves the name empty.
   */
  function ExpectedFile(ts: seq<Token>, k: nat): FileResult
  {
    var s := FileStop(ts, k);
    var t := Tok(ts, s);
    FileResult(if t.kind == FileEnd then t.data else "", ContentBetween(ts, k, s), LastOpening(ts, k, s),
               if t.kind == FileEnd then s + 1 else s)
  }

  /** From any index up to where the block stops, the loop carrying the reference state so far builds the reference block. */
  lemma {:induction false} FileLoopFrom(ts: seq<Token>, k: nat, j: nat)
    requires k <= j <= FileStop(ts, k)
    ensures FileLoop(ts, j, ContentBetween(ts, k, j), LastOpening(ts, k, j), InCode(ts, k, j)) == ExpectedFile(ts, k)
    decreases FileStop(ts, k) - j
  {
    if j < FileStop(ts, k) {
      assert !EndsFile(Tok(ts, j));
      var fence := Tok(ts, j).kind == TripleBacktick;
      assert Fences(ts, k, j + 1) == Fences(ts, k, j) + (if fence then 1 else 0);
      assert InCode(ts, k, j + 1) == if fence then !InCode(ts, k, j) else InCode(ts, k, j);
      assert ContentBetween(ts, k, j + 1) == ContentBetween(ts, k, j) + Contribution(ts, k, j);
      assert LastOpening(ts, k, j + 1) == if fence && !InCode(ts, k, j) then Tok(ts, j).data else LastOpening(ts, k, j);
      FileLoopFrom(ts, k, j + 1);
      var c, l, ic := ContentBetween(ts, k, j), LastOpening(ts, k, j), InCode(ts, k, j);
      var t := Tok(ts, j);
      if fence && !ic {
        assert ContentBetween(ts, k, j + 1) == c + "" == c;
        assert FileLoop(ts, j, c, l, ic) == FileLoop(ts, j + 1, c, t.data, true);
      } else if fence {
        assert ContentBetween(ts, k, j + 1) == c + "" == c;
        assert FileLoop(ts, j, c, l, ic) == FileLoop(ts, j + 1, c, l, false);
      } else if t.kind == Text || !ic {
        assert FileLoop(ts, j, c, l, ic) == FileLoop(ts, j + 1, c + (t.data + "\n"), l, ic);
      } else {
        assert ContentBetween(ts, k, j + 1) == c + "" == c;
        assert FileLoop(ts, j, c, l, ic) == FileLoop(ts, j + 1, c, l, ic);
      }
      assert FileLoop(ts, j, c, l, ic)
        == FileLoop(ts, j + 1, ContentBetween(ts, k, j + 1), LastOpening(ts, k, j + 1), InCode(ts, k, j + 1));
    }
  }

  /**
   * `parseFile`'s loop builds exactly the reference block: the name of the
   * first `EOF_`, the content every token contributes up to it (fences
   * nothing; Text always; other tokens outside code blocks), the data of the
   * last opening fence as the language, and it stops past the `EOF_` or at
   * the EOF.
   */
  lemma FileLoopSpec(ts: seq<Token>, k: nat)
    ensures FileLoop(ts, k, "", "", false) == ExpectedFile(ts, k)
  {
    FileLoopFrom(ts, k, k);
  }

  /** A file block consumes no EOF: every token before where it stops is something else. */
  lemma FileAtNoEOF(ts: seq<Token>, k: nat)
    requires Tok(ts, k).kind != EOF
    ensures var f := FileAt(ts, k);
      forall j :: k <= j < f.end ==> Tok(ts, j).kind != EOF
  {
    FileLoopSpec(ts, k + 1);
  }

  // ---- Reference definitions for the root ----

  /** The first index at or after k whose token is not Text. */
  function TextRunEnd(ts: seq<Token>, k: nat): (e: nat)
    ensures k <= e && Tok(ts, e).kind != Text
    ensures forall j :: k <= j < e ==> Tok(ts, j).kind == Text
    decreases |ts| - k
  {
    if Tok(ts, k).kind != Text then k else TextRunEnd(ts, k + 1)
  }

  /** The data of the tokens at indices k up to e. */
  function RunData(ts: seq<Token>, k: nat, e: nat): (ds: seq<string>)
    requires k <= e
    ensures |ds| == e - k && forall i :: 0 <= i < e - k ==> ds[i] == Tok(ts, k + i).data
  {
    seq(e - k, i requires 0 <= i < e - k => Tok(ts, k + i).data)
  }

  /** When the token at k is not Text, whether a text node is open makes no difference. */
  lemma RootLoopNotText(ts: seq<Token>, k: nat, acc: seq<Child>)
    requires acc != [] && acc[|acc| - 1].TextChild? && Tok(ts, k).kind != Text
    ensures RootLoop(ts, k, acc, true) == RootLoop(ts, k, acc, false)
  {
  }

  lemma {:induction false} MergeFrom(ts: seq<Token>, k: nat, j: nat, acc: seq<Child>)
    requires k < j <= TextRunEnd(ts, k)
    ensures var e := TextRunEnd(ts, k);
      RootLoop(ts, j, acc + [TextChild(Join(RunData(ts, k, j), "\n"))], true)
        == RootLoop(ts, e, acc + [TextChild(Join(RunData(ts, k, e), "\n"))], false)
    decreases TextRunEnd(ts, k) - j
  {
    var e := TextRunEnd(ts, k);
    var cur := acc + [TextChild(Join(RunData(ts, k, j), "\n"))];
    if j == e {
      RootLoopNotText(ts, e, cur);
    } else {
      var t := Tok(ts, j);
      assert t.kind == Text;
      assert RunData(ts, k, j + 1) == RunData(ts, k, j) + [t.data];
      JoinSnoc(RunData(ts, k, j), t.data, "\n");
      assert cur[..|cur| - 1] == acc;
      var next := acc + [TextChild(Join(RunData(ts, k, j + 1), "\n"))];
      assert RootLoop(ts, j, cur, true) == RootLoop(ts, j + 1, next, true);
      MergeFrom(ts, k, j + 1, acc);
    }
  }

  /**
   * Consecutive Text tokens become one text node: their data joined with
   * newlines, after which the root goes on at the first token that is not
   * Text, with no text node open.
   */
  lemma TextMerge(ts: seq<Token>, k: nat, acc: seq<Child>)
    requires Tok(ts, k).kind == Text
    ensures var e := TextRunEnd(ts, k);
      RootLoop(ts, k, acc, false) == RootLoop(ts, e, acc + [TextChild(Join(RunData(ts, k, e), "\n"))], false)
  {
    assert RunData(ts, k, k + 1) == [Tok(ts, k).data];
    MergeFrom(ts, k, k + 1, acc);
  }

  /**
   * `parseRoot` stops at the first EOF at or after where it starts, without
   * consuming it, and the children it builds keep those it was given in
   * front.
   */
  lemma {:induction false} RootLoopEnd(ts: seq<Token>, k: nat, acc: seq<Child>, merging: bool)
    requires merging ==> acc != [] && acc[|acc| - 1].TextChild?
    ensures var (cs, e) := RootLoop(ts, k, acc, merging);
      && k <= e && Tok(ts, e).kind == EOF && (forall j :: k <= j < e ==> Tok(ts, j).kind != EOF)
      && |acc| <= |cs| && cs[..|acc| - (if merging then 1 else 0)] == acc[..|acc| - (if merging then 1 else 0)]
    decreases |ts| - k
  {
    var t := Tok(ts, k);
    if t.kind == EOF {
    } else if t.kind == Text {
      var next := if merging then acc[..|acc| - 1] + [TextChild(acc[|acc| - 1].content + "\n" + t.data)]
                  else acc + [TextChild(t.data)];
      RootLoopEnd(ts, k + 1, next, true);
      var cs := RootLoop(ts, k + 1, next, true).0;
      assert cs[..|next| - 1] == next[..|next| - 1];
      assert next[..|next| - 1] == acc[..|acc| - (if merging then 1 else 0)];
    } else if t.kind == FileStart {
      var f := FileAt(ts, k);
      FileAtNoEOF(ts, k);
      var next := acc + [FileChild(f.name, f.content, f.language)];
      RootLoopEnd(ts, f.end, next, false);
      var cs := RootLoop(ts, f.end, next, false).0;
      assert cs[..|next|][..|acc|] == acc;
    } else {
      RootLoopEnd(ts, k + 1, acc, false);
    }
  }

  // ---- The token buffer ----

  /**
   * The buffer `tokens` and a lexer at `lpos` together still deliver the
   * stream `all`: the buffer holds its first tokens, and the lexer yields
   * the rest; once the buffer holds all of it, the lexer yields EOF and
   * stays where it is.
   */
  ghost predicate Buffered(input: string, all: seq<Token>, tokens: seq<Token>, lpos: int)
  {
    && 0 <= lpos <= |input| + 1
    && (forall i :: 0 <= i < |tokens| ==> tokens[i] == Tok(all, i))
    && (|tokens| < |all| ==> all[|tokens|..] == Tokens(input, lpos))
    && (|tokens| >= |all| ==> NextOf(input, lpos) == (Token(EOF, ""), lpos))
  }

  /** Drawing one more token from the lexer gives the next token of the stream, and keeps the buffer in step. */
  lemma BufferStep(input: string, all: seq<Token>, tokens: seq<Token>, lpos: int)
    requires Buffered(input, all, tokens, lpos)
    ensures var (t, p) := NextOf(input, lpos);
      t == Tok(all, |tokens|) && Buffered(input, all, tokens + [t], p)
  {
    NextProgress(input, lpos);
    var (t, p) := NextOf(input, lpos);
    var n := tokens + [t];
    if |tokens| < |all| {
      assert all[|tokens|..] == Tokens(input, lpos);
      assert t == all[|tokens|];
      if t.kind != EOF {
        assert Tokens(input, lpos) == [t] + Tokens(input, p) && Tokens(input, p) != [];
        assert all[|n|..] == all[|tokens|..][1..];
      } else {
        assert |n| == |all| && |input| <= p;
        assert NextOf(input, p) == (Token(EOF, ""), p);
      }
    }
    assert forall i :: 0 <= i < |n| ==> n[i] == Tok(all, i);
  }

  /**
   * Always true: it states nothing and serves only as a trigger. It names
   * the places where the parser draws tokens from the lexer. `Parser.Valid` states the buffer condition under a quantifier
   * triggered by this predicate, so that the condition is unfolded only
   * where a token is drawn (`Peek`, `Next` and the constructor).
   */
  ghost predicate Drawn(n: int) { true }

  // ---- The syntax tree and the parser ----

  /** The kind of a syntax-tree node: `Root`, `Text`, `File` or `Error`. */
  datatype NodeKind = RootNode | TextNode | FileNode | ErrorNode

  /** A node of the syntax tree; the parser fills in its fields and children in place. */
  class ASTNode {
    var kind: NodeKind
    var content: string
    var name: string
    var language: string
    var children: seq<ASTNode>

    /** A node of the given kind and content, with no name, language or children. */
    constructor (kind: NodeKind, content: string)
      ensures this.kind == kind && this.content == content && name == "" && language == "" && children == []
    {
      this.kind := kind;
      this.content := content;
      name := "";
      language := "";
      children := [];
    }

    /** The children are leaves other than this node, showing vals one for one. */
    ghost predicate ShowsAll(vals: seq<Child>)
      reads this, children
    {
      && |children| == |vals|
      && forall i :: 0 <= i < |vals| ==> children[i] != this && Shows(children[i], vals[i])
    }

    /** Appends a child, keeping the children already there. */
    method AddChild(child: ASTNode)
      modifies this
      ensures children == old(children) + [child]
      ensures kind == old(kind) && content == old(content) && name == old(name) && language == old(language)
    {
      children := children + [child];
    }
  }

  /** The node n is a leaf that shows the child value c. */
  ghost predicate Shows(n: ASTNode, c: Child)
    reads n
  {
    && n.children == []
    && match c
       case TextChild(content) => n.kind == TextNode && n.content == content && n.name == "" && n.language == ""
       case FileChild(name, content, language) =>
         n.kind == FileNode && n.content == content && n.name == name && n.language == language
  }

  /**
   * What `parseRoot` has built: a root node whose children show `vals`, and,
   * when a text node is open, that it is the last child and no other.
   */
  ghost predicate Building(root: ASTNode, lastText: ASTNode?, vals: seq<Child>)
    reads root, root.children
  {
    && root.kind == RootNode && root.content == "" && root.name == "" && root.language == ""
    && root.ShowsAll(vals)
    && (lastText != null ==>
          && vals != [] && lastText == root.children[|vals| - 1] && vals[|vals| - 1].TextChild?
          && forall i :: 0 <= i < |vals| - 1 ==> root.children[i] != lastText)
  }

  /** A parser over the tokens of a lexer, buffered so that it can look one token ahead. */
  class Parser {
    const lexer: Lexer
    var tokens: seq<Token>
    var pos: int
    /** The stream the lexer had to deliver when the parser was made. */
    ghost const all: seq<Token>

    ghost predicate Valid()
      reads this, lexer
    {
      lexer.Valid() && 0 <= pos <= |tokens|
      && forall n {:trigger Drawn(n)} :: Drawn(n) ==> Buffered(lexer.input, all, tokens, lexer.pos)
    }

    /** A parser with an empty buffer, at the start of the lexer's remaining tokens. */
    constructor (lexer: Lexer)
      requires lexer.Valid()
      ensures this.lexer == lexer && tokens == [] && pos == 0 && all == Tokens(lexer.input, lexer.pos) && Valid()
    {
      this.lexer := lexer;
      tokens := [];
      pos := 0;
      all := Tokens(lexer.input, lexer.pos);
      new;
      assert Drawn(0);
    }

    /** The token at the current position, without moving; the buffer may grow by the token drawn. */
    method Peek() returns (t: Token)
      requires Valid()
      modifies this, lexer
      ensures Valid() && t == Tok(all, pos) && pos == old(pos) && pos < |tokens|
      ensures tokens == old(tokens) || tokens == old(tokens) + [t]
    {
      assert Drawn(0);
      if pos >= |tokens| {
        BufferStep(lexer.input, all, tokens, lexer.pos);
        var token := lexer.Next();
        tokens := tokens + [token];
      }
      t := tokens[pos];
    }

    /** The token at the current position, which it moves past; the buffer may grow by the token drawn. */
    method Next() returns (t: Token)
      requires Valid()
      modifies this, lexer
      ensures Valid() && t == Tok(all, old(pos)) && pos == old(pos) + 1
      ensures tokens == old(tokens) || tokens == old(tokens) + [t]
    {
      assert Drawn(0);
      if pos >= |tokens| {
        BufferStep(lexer.input, all, tokens, lexer.pos);
        var token := lexer.Next();
        tokens := tokens + [token];
      }
      t := tokens[pos];
      pos := pos + 1;
    }

    /** Consumes one token: a text node with its data when it is Text, an error node otherwise. */
    method ParseText() returns (n: ASTNode)
      requires Valid()
      modifies this, lexer
      ensures Valid() && pos == old(pos) + 1 && fresh(n)
      ensures var t := Tok(all, old(pos));
        if t.kind == Text then Shows(n, TextChild(t.data))
        else n.kind == ErrorNode && n.content == "expected a text token" && n.children == []
    {
      var token := Next();
      if token.kind == Text {
        n := new ASTNode(TextNode, token.data);
      } else {
        n := new ASTNode(ErrorNode, "expected a text token");
      }
    }

    /** Consumes a `File:` token and the block after it: a file node showing `FileAt` at the old position. */
    method ParseFile() returns (n: ASTNode)
      requires Valid()
      modifies this, lexer
      ensures Valid() && fresh(n)
      ensures var f := FileAt(all, old(pos));
        pos == f.end && Shows(n, FileChild(f.name, f.content, f.language))
    {
      ghost var start := pos;
      var _ := Next();
      n := new ASTNode(FileNode, "");
      var content := "";
      var language := "";
      var inCode := false;
      while true
        invariant Valid() && fresh(n) && start < pos
        invariant FileAt(all, start) == FileLoop(all, pos, content, language, inCode)
        invariant n.kind == FileNode && n.content == "" && n.name == "" && n.language == "" && n.children == []
        decreases |all| - pos
      {
        var token := Peek();
        ghost var r := FileLoop(all, pos, content, language, inCode);
        if token.kind == FileEnd {
          assert r == FileResult(token.data, content, language, pos + 1);
          n.name := token.data;
          var _ := Next();
          break;
        } else if token.kind == EOF {
          assert r == FileResult("", content, language, pos);
          break;
        } else if token.kind == TripleBacktick {
          inCode := !inCode;
          if inCode {
            assert r == FileLoop(all, pos + 1, content, token.data, true);
            language := token.data;
            var _ := Next();
            continue;
          }
        }
        if token.kind == Text || (!inCode && token.kind != TripleBacktick) {
          content := content + (token.data + "\n");
        }
        assert r == FileLoop(all, pos + 1, content, language, inCode);
        var _ := Next();
      }
      assert FileAt(all, start) == FileResult(n.name, content, language, pos);
      n.content := content;
      if language != "" {
        n.language := language;
      }
    }

    /**
     * The Text case of `parseRoot` while a text node is open: the token's
     * data goes on a new line of that node, and the token is consumed.
     */
    method MergeText(root: ASTNode, lastText: ASTNode, token: Token, ghost vals: seq<Child>) returns (ghost next: seq<Child>)
      requires Valid() && token == Tok(all, pos) && token.kind == Text && Building(root, lastText, vals)
      modifies this, lexer, lastText
      ensures Valid() && pos == old(pos) + 1 && Building(root, lastText, next)
      ensures RootLoop(all, old(pos), vals, true) == RootLoop(all, pos, next, true)
    {
      ghost var last := |vals| - 1;
      assert root != lastText;
      ghost var kids := root.children;
      ghost var prefix := vals[..last];
      assert forall i :: 0 <= i < last ==> Shows(kids[i], prefix[i]);
      assert Shows(lastText, vals[last]);
      lastText.content := lastText.content + "\n" + token.data;
      assert forall i :: 0 <= i < last ==> Shows(kids[i], prefix[i]);
      var _ := Next();
      next := prefix + [TextChild(lastText.content)];
      assert Shows(lastText, next[last]);
    }

    /** The Text case of `parseRoot` with no text node open: `parseText` makes one, and it is added to the root. */
    method StartText(root: ASTNode, ghost vals: seq<Child>) returns (lastText: ASTNode, ghost next: seq<Child>)
      requires Valid() && Tok(all, pos).kind == Text && Building(root, null, vals)
      modifies this, lexer, root
      ensures Valid() && pos == old(pos) + 1 && fresh(lastText) && Building(root, lastText, next)
      ensures RootLoop(all, old(pos), vals, false) == RootLoop(all, pos, next, true)
    {
      ghost var t := Tok(all, pos);
      lastText := ParseText();
      root.AddChild(lastText);
      next := vals + [TextChild(t.data)];
      assert Shows(lastText, next[|vals|]);
    }

    /** The FileStart case of `parseRoot`: `parseFile` makes a file node, and it is added to the root. */
    method AddFile(root: ASTNode, ghost vals: seq<Child>) returns (ghost next: seq<Child>)
      requires Valid() && Tok(all, pos).kind == FileStart && Building(root, null, vals)
      modifies this, lexer, root
      ensures Valid() && pos == FileAt(all, old(pos)).end && Building(root, null, next)
      ensures RootLoop(all, old(pos), vals, false) == RootLoop(all, pos, next, false)
    {
      ghost var f := FileAt(all, pos);
      var child := ParseFile();
      root.AddChild(child);
      next := vals + [FileChild(f.name, f.content, f.language)];
      assert Shows(child, next[|vals|]);
    }

    /**
     * Parses up to the first EOF, which it leaves unconsumed: a fresh root
     * whose children are leaves showing `RootOf` at the old position.
     */
    method ParseRoot() returns (root: ASTNode)
      requires Valid()
      modifies this, lexer
      ensures Valid() && fresh(root)
      ensures var (cs, e) := RootOf(all, old(pos));
        && pos == e && Tok(all, pos).kind == EOF && Building(root, null, cs)
    {
      ghost var start := pos;
      root := new ASTNode(RootNode, "");
      var lastText: ASTNode? := null;
      ghost var vals: seq<Child> := [];
      while true
        invariant Valid() && fresh(root) && start <= pos
        invariant lastText != null ==> fresh(lastText)
        invariant Building(root, lastText, vals)
        invariant RootOf(all, start) == RootLoop(all, pos, vals, lastText != null)
        decreases |all| - pos
      {
        var token := Peek();
        if token.kind == EOF {
          return;
        } else if token.kind == Text {
          if lastText != null {
            vals := MergeText(root, lastText, token, vals);
          } else {
            lastText, vals := StartText(root, vals);
          }
        } else if token.kind == FileStart {
          vals := AddFile(root, vals);
          lastText := null;
        } else {
          var _ := Next();
          lastText := null;
        }
      }
    }
  }

  /** Parses the lexer's remaining tokens into a root node; there is never an error. */
  method Parse(lexer: Lexer) returns (root: ASTNode, err: Option<string>)
    requires lexer.Valid()
    modifies lexer
    ensures err == None && fresh(root)
    ensures Building(root, null, RootOf(Tokens(lexer.input, old(lexer.pos)), 0).0)
  {
    var parser := new Parser(lexer);
    root := parser.ParseRoot();
    err := None;
  }
}
