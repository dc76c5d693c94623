/**
 * The line and marker lexer of the embedded-file format
 * (tdaid/examples/embeddedFile/lexer.go). A line starting with one of the
 * markers `File: `, `EOF_` or three backticks is one token whose data is
 * the rest of the line, trimmed; a newline on its own is an empty Text
 * token; any other run of text up to a newline or a marker is a Text token
 * of its trimmed text, and a blank run is skipped.
 *
 * `NextOf` and `Tokens` state what the lexer produces from a position; the
 * `Lexer` class keeps the position and the checkpoint stack, and its methods
 * are proved to follow them.
 */
module EmbeddedLexer {
  import opened GoStrings

  datatype Kind = EOF | Text | FileStart | FileEnd | TripleBacktick

  datatype Token = Token(kind: Kind, data: string)

  const FileMarker: string := "File: "
  const EndMarker: string := "EOF_"
  const FenceMarker: string := "```"

  /** A marker starts at position j. */
  predicate MarkerAt(input: string, j: nat)
    requires j <= |input|
  {
    HasPrefix(input[j..], FileMarker) || HasPrefix(input[j..], EndMarker) || HasPrefix(input[j..], FenceMarker)
  }

  /** A run of text stops at position j: the end of the input, a newline, or a marker. */
  predicate StopsAt(input: string, j: nat)
    requires j <= |input|
  {
    j == |input| || input[j] == '\n' || MarkerAt(input, j)
  }

  /** Where a run of text starting at `pos` stops: the first stop at or after it. */
  function TextEnd(input: string, pos: nat): (r: nat)
    requires pos <= |input|
    ensures pos <= r <= |input| && StopsAt(input, r)
    ensures forall j :: pos <= j < r ==> !StopsAt(input, j)
    decreases |input| - pos
  {
    if StopsAt(input, pos) then pos else TextEnd(input, pos + 1)
  }

  /** The end of the line that contains `start`: the next newline, or the end of the input. */
  function LineEnd(input: string, start: nat): (r: nat)
    requires start <= |input|
    ensures start <= r <= |input|
    ensures r < |input| ==> input[r] == '\n'
    ensures forall j :: start <= j < r ==> input[j] != '\n'
  {
    var k := IndexChar(input[start..], '\n');
    assert forall j :: start <= j < start + k ==> input[j] == input[start..][..k][j - start];
    if k < 0 then
      assert forall j :: start <= j < |input| ==> input[j] == input[start..][j - start];
      |input|
    else start + k
  }

  /**
   * The token of a marker line and the position after it: its data is the
   * rest of the line after the marker, trimmed, and the position is one past
   * the line's newline, so one past the end of the input when the line has
   * none.
   */
  function MarkerToken(input: string, pos: nat, kind: Kind, marker: string): (Token, int)
    requires pos + |marker| <= |input|
  {
    var start := pos + |marker|;
    var end := LineEnd(input, start);
    (Token(kind, TrimSpace(input[start..end])), end + 1)
  }

  /**
   * The run of text at `pos`: its trimmed text, and the position after it,
   * past the newline that ends it when a newline does.
   */
  function RunAt(input: string, pos: nat): (r: (string, nat))
    requires pos < |input| && !StopsAt(input, pos)
    ensures pos < r.1 <= |input|
  {
    var end := TextEnd(input, pos);
    (TrimSpace(input[pos..end]), if end < |input| && input[end] == '\n' then end + 1 else end)
  }

  /** The token the lexer produces at `pos`, and its position afterwards. */
  function NextOf(input: string, pos: int): (Token, int)
    requires pos >= 0
    decreases |input| - pos
  {
    if pos >= |input| then (Token(EOF, ""), pos)
    else if input[pos] == '\n' then (Token(Text, ""), pos + 1)
    else if HasPrefix(input[pos..], FileMarker) then MarkerToken(input, pos, FileStart, FileMarker)
    else if HasPrefix(input[pos..], EndMarker) then MarkerToken(input, pos, FileEnd, EndMarker)
    else if HasPrefix(input[pos..], FenceMarker) then MarkerToken(input, pos, TripleBacktick, FenceMarker)
    else
      var (data, after) := RunAt(input, pos);
      if data == [] then NextOf(input, after) else (Token(Text, data), after)
  }

  /** At a run of text, the token is the run's, or the one after a blank run. */
  lemma NextOfRun(input: string, pos: nat)
    requires pos < |input| && !StopsAt(input, pos)
    ensures var (data, after) := RunAt(input, pos);
      NextOf(input, pos) == if data == [] then NextOf(input, after) else (Token(Text, data), after)
  {
  }

  /** At or past the end of the input the lexer yields EOF and stays where it is. */
  lemma NextAtEnd(input: string, pos: int)
    requires pos >= |input|
    ensures NextOf(input, pos) == (Token(EOF, ""), pos)
  {
  }

  /** A newline is an empty Text token, and the lexer moves past it. */
  lemma NextNewline(input: string, pos: nat)
    requires pos < |input| && input[pos] == '\n'
    ensures NextOf(input, pos) == (Token(Text, ""), pos + 1)
  {
  }

  /**
   * A line that starts with a marker is one token of that marker's kind,
   * the markers tried in the order `File: `, `EOF_`, three backticks.
   */
  lemma NextMarker(input: string, pos: nat)
    requires pos < |input| && input[pos] != '\n'
    ensures HasPrefix(input[pos..], FileMarker) ==>
      NextOf(input, pos) == MarkerToken(input, pos, FileStart, FileMarker)
    ensures !HasPrefix(input[pos..], FileMarker) && HasPrefix(input[pos..], EndMarker) ==>
      NextOf(input, pos) == MarkerToken(input, pos, FileEnd, EndMarker)
    ensures !HasPrefix(input[pos..], FileMarker) && !HasPrefix(input[pos..], EndMarker) && HasPrefix(input[pos..], FenceMarker) ==>
      NextOf(input, pos) == MarkerToken(input, pos, TripleBacktick, FenceMarker)
  {
  }

  /**
   * A run of text holds no newline and no marker up to where it stops. When
   * it is not all white space its token is its trimmed text, and the lexer
   * moves past the newline that ends it; when it is, the lexer goes on to
   * the token after it.
   */
  lemma TextRun(input: string, pos: nat)
    requires pos < |input| && !StopsAt(input, pos)
    ensures var end := TextEnd(input, pos);
      var after := if end < |input| && input[end] == '\n' then end + 1 else end;
      && (forall j :: pos <= j < end ==> !StopsAt(input, j))
      && (!Blank(input[pos..end]) ==> NextOf(input, pos) == (Token(Text, TrimSpace(input[pos..end])), after))
      && (Blank(input[pos..end]) ==> NextOf(input, pos) == NextOf(input, after))
  {
    NextOfRun(input, pos);
    TrimSpaceSpace(input[pos..TextEnd(input, pos)]);
  }

  /**
   * Every token other than EOF moves the lexer forward, to at most one past
   * the end; EOF carries no data and leaves it where it was, at or past the end, or, after
   * trailing white space, at the end.
   */
  lemma {:induction false} NextProgress(input: string, pos: int)
    requires 0 <= pos
    ensures var (t, p) := NextOf(input, pos);
      && (t.kind != EOF ==> pos < p <= |input| + 1)
      && (t.kind == EOF ==> t.data == "" && pos <= p && |input| <= p && (pos <= |input| ==> p == |input|) && (pos > |input| ==> p == pos))
    decreases |input| - pos
  {
    if pos < |input| && !StopsAt(input, pos) {
      var (data, after) := RunAt(input, pos);
      if data == [] {
        NextProgress(input, after);
      }
    }
  }

  /** Trimmed text with no newline in it: what every token carries. */
  predicate Trimmed(data: string)
  {
    '\n' !in data && (data == [] || (!IsSpace(data[0]) && !IsSpace(data[|data| - 1])))
  }

  /** Trimming a single line gives trimmed, single-line data. */
  lemma TrimmedLine(line: string)
    requires '\n' !in line
    ensures Trimmed(TrimSpace(line))
  {
    TrimSpaceSpace(line);
    TrimSpaceAbsent(line, '\n');
  }

  /** A run of text between two positions holds no newline. */
  lemma NoNewline(input: string, pos: nat, end: nat)
    requires pos <= end <= |input|
    requires forall j :: pos <= j < end ==> !StopsAt(input, j)
    ensures '\n' !in input[pos..end]
  {
    forall i | 0 <= i < end - pos
      ensures input[pos..end][i] != '\n'
    {
      assert !StopsAt(input, pos + i);
    }
  }

  /** The data of a marker line's token is trimmed and single-line. */
  lemma MarkerTrimmed(input: string, pos: nat, kind: Kind, marker: string)
    requires pos + |marker| <= |input|
    ensures Trimmed(MarkerToken(input, pos, kind, marker).0.data)
  {
    var start := pos + |marker|;
    var end := LineEnd(input, start);
    assert '\n' !in input[start..end] by {
      assert forall j :: start <= j < end ==> input[start..end][j - start] == input[j];
    }
    TrimmedLine(input[start..end]);
  }

  /** Every token's data is a single line, trimmed at both ends. */
  lemma {:induction false} NextTrimmed(input: string, pos: int)
    requires pos >= 0
    ensures Trimmed(NextOf(input, pos).0.data)
    decreases |input| - pos
  {
    if pos >= |input| || input[pos] == '\n' {
    } else if HasPrefix(input[pos..], FileMarker) {
      MarkerTrimmed(input, pos, FileStart, FileMarker);
    } else if HasPrefix(input[pos..], EndMarker) {
      MarkerTrimmed(input, pos, FileEnd, EndMarker);
    } else if HasPrefix(input[pos..], FenceMarker) {
      MarkerTrimmed(input, pos, TripleBacktick, FenceMarker);
    } else {
      var end := TextEnd(input, pos);
      var (data, after) := RunAt(input, pos);
      if data == [] {
        NextTrimmed(input, after);
      } else {
        NoNewline(input, pos, end);
        TrimmedLine(input[pos..end]);
      }
    }
  }

  /** The tokens `Run` collects from `pos`: every token up to and including the first EOF. */
  function Tokens(input: string, pos: int): (ts: seq<Token>)
    requires 0 <= pos <= |input| + 1
    decreases |input| + 1 - pos
  {
    NextProgress(input, pos);
    var (t, p) := NextOf(input, pos);
    if t.kind == EOF then [t] else [t] + Tokens(input, p)
  }

  /** The tokens of a run end with EOF, and that is their only EOF. */
  lemma {:induction false} TokensEndWithEOF(input: string, pos: int)
    requires 0 <= pos <= |input| + 1
    ensures var ts := Tokens(input, pos);
      ts != [] && ts[|ts| - 1].kind == EOF && forall k :: 0 <= k < |ts| - 1 ==> ts[k].kind != EOF
    decreases |input| + 1 - pos
  {
    NextProgress(input, pos);
    var (t, p) := NextOf(input, pos);
    if t.kind != EOF {
      TokensEndWithEOF(input, p);
    }
  }

  /** A lexer over a fixed input: its position and its stack of checkpoints. */
  class Lexer {
    const input: string
    var pos: int
    var checkpoints: seq<int>

    /** Positions never go below zero, nor more than one past the end. */
    ghost predicate Valid()
      reads this
    {
      0 <= pos <= |input| + 1 && forall k :: 0 <= k < |checkpoints| ==> 0 <= checkpoints[k] <= |input| + 1
    }

    constructor (input: string)
      ensures this.input == input && pos == 0 && checkpoints == [] && Valid()
    {
      this.input := input;
      pos := 0;
      checkpoints := [];
    }

    /** Pushes the current position. */
    method Checkpoint()
      requires Valid()
      modifies this
      ensures checkpoints == old(checkpoints) + [old(pos)] && pos == old(pos) && Valid()
    {
      checkpoints := checkpoints + [pos];
    }

    /** Pops the most recent checkpoint into the position; nothing when there is none. */
    method Rollback()
      requires Valid()
      modifies this
      ensures old(checkpoints) == [] ==> pos == old(pos) && checkpoints == []
      ensures old(checkpoints) != [] ==>
        pos == old(checkpoints)[|old(checkpoints)| - 1] && checkpoints == old(checkpoints)[..|old(checkpoints)| - 1]
      ensures Valid()
    {
      if |checkpoints| > 0 {
        pos := checkpoints[|checkpoints| - 1];
        checkpoints := checkpoints[..|checkpoints| - 1];
      }
    }

    /** The next token, and the position moves past it. */
    method Next() returns (t: Token)
      requires Valid()
      modifies this
      ensures (t, pos) == NextOf(input, old(pos)) && checkpoints == old(checkpoints) && Valid()
      decreases |input| + 1 - pos, 1
    {
      if pos >= |input| {
        return Token(EOF, "");
      }
      if input[pos] == '\n' {
        pos := pos + 1;
        return Token(Text, "");
      }
      if HasPrefix(input[pos..], FileMarker) {
        t := EmitWithSkip(FileStart, FileMarker);
      } else if HasPrefix(input[pos..], EndMarker) {
        t := EmitWithSkip(FileEnd, EndMarker);
      } else if HasPrefix(input[pos..], FenceMarker) {
        t := EmitWithSkip(TripleBacktick, FenceMarker);
      } else {
        t := EmitText();
      }
    }

    /** A marker line's token: the rest of the line after the marker, trimmed; the position moves past the newline. */
    method EmitWithSkip(kind: Kind, marker: string) returns (t: Token)
      requires Valid() && 0 <= pos && pos + |marker| <= |input|
      modifies this
      ensures (t, pos) == MarkerToken(input, old(pos), kind, marker) && checkpoints == old(checkpoints) && Valid()
    {
      var start := pos + |marker|;
      var k := IndexChar(input[start..], '\n');
      var end := if k == -1 then |input| else k + start;
      t := Token(kind, TrimSpace(input[start..end]));
      pos := end + 1;
    }

    /** A run of text up to the next newline or marker; a blank run gives the next token instead. */
    method EmitText() returns (t: Token)
      requires Valid() && 0 <= pos < |input| && !StopsAt(input, pos)
      modifies this
      ensures (t, pos) == NextOf(input, old(pos)) && checkpoints == old(checkpoints) && Valid()
      decreases |input| + 1 - pos, 0
    {
      var start := pos;
      NextOfRun(input, start);
      while pos < |input| && input[pos] != '\n' && !HasPrefix(input[pos..], FileMarker)
        && !HasPrefix(input[pos..], EndMarker) && !HasPrefix(input[pos..], FenceMarker)
        invariant start <= pos <= |input| && TextEnd(input, start) == TextEnd(input, pos)
        invariant checkpoints == old(checkpoints) && Valid()
        decreases |input| - pos
      {
        pos := pos + 1;
      }
      assert TextEnd(input, start) == pos;
      var data := TrimSpace(input[start..pos]);
      if pos < |input| && input[pos] == '\n' {
        pos := pos + 1;
      }
      assert (data, pos) == RunAt(input, start);
      if data == [] {
        t := Next();
      } else {
        t := Token(Text, data);
      }
    }

    /** All tokens from the current position up to and including the first EOF. */
    method Run() returns (tokens: seq<Token>)
      requires Valid()
      modifies this
      ensures tokens == Tokens(input, old(pos)) && checkpoints == old(checkpoints) && Valid()
    {
      tokens := [];
      while true
        invariant Valid() && checkpoints == old(checkpoints)
        invariant Tokens(input, old(pos)) == tokens + Tokens(input, pos)
        decreases |input| + 1 - pos
      {
        NextProgress(input, pos);
        var token := Next();
        if token.kind == EOF {
          tokens := tokens + [token];
          break;
        }
        tokens := tokens + [token];
      }
    }
  }
}
