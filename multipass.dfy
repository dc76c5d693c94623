/**
 * The multi-pass translator framework (multipass/multipass.go): messages
 * passed between stages, the parser combinators `Sequence`, `Or` and
 * `Regex`, and the greedy buffer/flush algorithm of `Stage`.
 *
 * Messages travel between stages as values; a `DefaultMessage` object is
 * the mutable record the setters update. A parser is a function from the
 * buffered messages to a `Run`: the `Result` it returns, or a panic (a Go
 * slice or index out of range). The channels of `Stage` become a finite
 * input sequence and the sequence of messages sent on the output channel.
 */
module Multipass {
  import Wrappers

  /** The dynamic type of a message: `DefaultMessage`, `EOF` or `Unknown`. */
  datatype MessageKind = Plain | EndOfInput | Unknown

  /** A message as it travels between stages. */
  datatype Message = Message(
    kind: MessageKind,
    parent: Wrappers.Option<Message>,
    children: seq<Message>,
    filename: string,
    line: int,
    column: int,
    text: string)

  /** The mutable `DefaultMessage` record (also embedded by `EOF` and `Unknown`). */
  class DefaultMessage {
    const kind: MessageKind
    var parent: Wrappers.Option<Message>
    var children: seq<Message>
    var filename: string
    var line: int
    var column: int
    var text: string

    /** A message with every field at its zero value (`NewDefaultMessage` for kind `Plain`). */
    constructor (kind: MessageKind)
      ensures this.kind == kind && parent == Wrappers.None && children == []
      ensures filename == "" && line == 0 && column == 0 && text == ""
    {
      this.kind := kind;
      parent := Wrappers.None;
      children := [];
      filename := "";
      line := 0;
      column := 0;
      text := "";
    }

    /** The message value this object currently holds. */
    function Value(): Message
      reads this
    {
      Message(kind, parent, children, filename, line, column, text)
    }

    method SetParent(p: Message)
      modifies this
      ensures Value() == old(Value()).(parent := Wrappers.Some(p))
    {
      parent := Wrappers.Some(p);
    }

    method AddChild(child: Message)
      modifies this
      ensures Value() == old(Value()).(children := old(children) + [child])
    {
      children := children + [child];
    }

    method SetPosition(filename: string, line: int, column: int)
      modifies this
      ensures Value() == old(Value()).(filename := filename, line := line, column := column)
    {
      this.filename := filename;
      this.line := line;
      this.column := column;
    }

    method SetText(text: string)
      modifies this
      ensures Value() == old(Value()).(text := text)
    {
      this.text := text;
    }
  }

  /** The outcome of a parse: whether it matched, the messages it produced and how many inputs it consumed. */
  datatype Result = Result(matched: bool, messages: seq<Message>, consumed: int)

  /** The zero `Result{}`: no match, nothing produced, nothing consumed. */
  const NoMatch := Result(false, [], 0)

  /** A call of a parser: it returns a result or panics. */
  datatype Run = Returns(result: Result) | Panics

  type Parser = seq<Message> -> Run

  predicate Matches(r: Run)
  {
    r.Returns? && r.result.matched
  }

  predicate Fails(r: Run)
  {
    r.Returns? && !r.result.matched
  }

  // ----- Sequence -----

  /**
   * The loop of `Sequence` from the remaining parsers, with the messages and
   * the consumed count gathered so far in `acc` (whose `matched` stays false
   * until every parser has matched).
   */
  function SequenceFrom(ps: seq<Parser>, input: seq<Message>, acc: Result): Run
    decreases |ps|
  {
    if ps == [] then Returns(acc.(matched := true))
    else
      match ps[0](input)
      case Panics => Panics
      case Returns(res) =>
        if !res.matched then Returns(acc)
        else SequenceFrom(ps[1..], input, acc.(messages := acc.messages + res.messages, consumed := acc.consumed + res.consumed))
  }

  /** The parser `Sequence(parsers...)`. */
  function Sequence(ps: seq<Parser>): Parser
  {
    input => SequenceFrom(ps, input, NoMatch)
  }

  /** Every parser in `ps` matches `input`. */
  predicate AllMatch(ps: seq<Parser>, input: seq<Message>)
  {
    forall i :: 0 <= i < |ps| ==> Matches(ps[i](input))
  }

  /** The messages of all the parsers' results on `input`, in order. */
  function Produced(ps: seq<Parser>, input: seq<Message>): seq<Message>
    requires AllMatch(ps, input)
    decreases |ps|
  {
    if ps == [] then [] else ps[0](input).result.messages + Produced(ps[1..], input)
  }

  /** The sum of the parsers' consumed counts on `input`. */
  function ConsumedSum(ps: seq<Parser>, input: seq<Message>): int
    requires AllMatch(ps, input)
    decreases |ps|
  {
    if ps == [] then 0 else ps[0](input).result.consumed + ConsumedSum(ps[1..], input)
  }

  lemma {:induction false} SequenceFromAll(ps: seq<Parser>, input: seq<Message>, acc: Result)
    requires AllMatch(ps, input)
    ensures SequenceFrom(ps, input, acc)
         == Returns(Result(true, acc.messages + Produced(ps, input), acc.consumed + ConsumedSum(ps, input)))
    decreases |ps|
  {
    if ps != [] {
      var res := ps[0](input).result;
      assert AllMatch(ps[1..], input) by {
        forall i | 0 <= i < |ps| - 1 ensures Matches(ps[1..][i](input)) {
          assert ps[1..][i] == ps[i + 1];
        }
      }
      SequenceFromAll(ps[1..], input, acc.(messages := acc.messages + res.messages, consumed := acc.consumed + res.consumed));
      assert acc.messages + res.messages + Produced(ps[1..], input) == acc.messages + Produced(ps, input);
    }
  }

  /**
   * When every parser matches, `Sequence` matches with the messages of all of
   * them in order and the sum of their consumed counts; each parser is given
   * the same input, not what the ones before it left over.
   */
  lemma SequenceMatches(ps: seq<Parser>, input: seq<Message>)
    requires AllMatch(ps, input)
    ensures Sequence(ps)(input) == Returns(Result(true, Produced(ps, input), ConsumedSum(ps, input)))
  {
    SequenceFromAll(ps, input, NoMatch);
  }

  lemma {:induction false} SequenceFromFailure(ps: seq<Parser>, input: seq<Message>, acc: Result, k: nat)
    requires k < |ps| && AllMatch(ps[..k], input) && !Matches(ps[k](input))
    ensures SequenceFrom(ps, input, acc)
         == if ps[k](input).Panics? then Panics
            else Returns(acc.(messages := acc.messages + Produced(ps[..k], input), consumed := acc.consumed + ConsumedSum(ps[..k], input)))
    decreases k
  {
    if k > 0 {
      var res := ps[0](input).result;
      assert Matches(ps[..k][0](input));
      assert ps[1..][..k - 1] == ps[..k][1..];
      assert AllMatch(ps[1..][..k - 1], input) by {
        var rest, pre := ps[1..][..k - 1], ps[..k];
        assert forall i :: 0 <= i < k - 1 ==> rest[i] == pre[i + 1];
      }
      SequenceFromFailure(ps[1..], input, acc.(messages := acc.messages + res.messages, consumed := acc.consumed + res.consumed), k - 1);
      assert acc.messages + res.messages + Produced(ps[1..][..k - 1], input) == acc.messages + Produced(ps[..k], input);
    } else {
      assert ps[..k] == [];
    }
  }

  /**
   * At the first parser that does not match, `Sequence` stops: it panics if
   * that parser panics, and otherwise reports no match, still carrying the
   * messages and the consumed count of the parsers before it.
   */
  lemma SequenceStops(ps: seq<Parser>, input: seq<Message>, k: nat)
    requires k < |ps| && AllMatch(ps[..k], input) && !Matches(ps[k](input))
    ensures Sequence(ps)(input)
         == if ps[k](input).Panics? then Panics
            else Returns(Result(false, Produced(ps[..k], input), ConsumedSum(ps[..k], input)))
  {
    SequenceFromFailure(ps, input, NoMatch, k);
  }

  /** The loop of the `Sequence` closure. */
  method RunSequence(ps: seq<Parser>, input: seq<Message>) returns (r: Run)
    ensures r == Sequence(ps)(input)
  {
    var output := NoMatch;
    for i := 0 to |ps|
      invariant SequenceFrom(ps, input, NoMatch) == SequenceFrom(ps[i..], input, output)
    {
      var res := ps[i](input);
      if res.Panics? {
        return Panics;
      }
      if !res.result.matched {
        return Returns(output);
      }
      assert ps[i..][1..] == ps[i + 1..];
      output := output.(messages := output.messages + res.result.messages, consumed := output.consumed + res.result.consumed);
    }
    return Returns(output.(matched := true));
  }

  // ----- Or -----

  /** The loop of `Or`: the first result that matches (or the first panic), else `Result{}`. */
  function OrFrom(ps: seq<Parser>, input: seq<Message>): Run
    decreases |ps|
  {
    if ps == [] then Returns(NoMatch)
    else if Fails(ps[0](input)) then OrFrom(ps[1..], input)
    else ps[0](input)
  }

  /** The parser `Or(parsers...)`. */
  function Or(ps: seq<Parser>): Parser
  {
    input => OrFrom(ps, input)
  }

  lemma {:induction false} OrFromFirst(ps: seq<Parser>, input: seq<Message>, k: nat)
    requires k < |ps| && !Fails(ps[k](input))
    requires forall i :: 0 <= i < k ==> Fails(ps[i](input))
    ensures OrFrom(ps, input) == ps[k](input)
    decreases k
  {
    if k > 0 {
      assert Fails(ps[0](input));
      forall i | 0 <= i < k - 1 ensures Fails(ps[1..][i](input)) {
        assert ps[1..][i] == ps[i + 1];
      }
      OrFromFirst(ps[1..], input, k - 1);
    }
  }

  /** `Or` returns, unchanged, the result of the first parser that matches (or its panic). */
  lemma OrFirstMatch(ps: seq<Parser>, input: seq<Message>, k: nat)
    requires k < |ps| && !Fails(ps[k](input))
    requires forall i :: 0 <= i < k ==> Fails(ps[i](input))
    ensures Or(ps)(input) == ps[k](input)
  {
    OrFromFirst(ps, input, k);
  }

  lemma {:induction false} OrFromNone(ps: seq<Parser>, input: seq<Message>)
    requires forall i :: 0 <= i < |ps| ==> Fails(ps[i](input))
    ensures OrFrom(ps, input) == Returns(NoMatch)
    decreases |ps|
  {
    if ps != [] {
      assert Fails(ps[0](input));
      forall i | 0 <= i < |ps| - 1 ensures Fails(ps[1..][i](input)) {
        assert ps[1..][i] == ps[i + 1];
      }
      OrFromNone(ps[1..], input);
    }
  }

  /** When no parser matches, `Or` returns the empty unmatched `Result{}`, whatever the failed parsers carried. */
  lemma OrNoMatch(ps: seq<Parser>, input: seq<Message>)
    requires forall i :: 0 <= i < |ps| ==> Fails(ps[i](input))
    ensures Or(ps)(input) == Returns(NoMatch)
  {
    OrFromNone(ps, input);
  }

  /** The loop of the `Or` closure. */
  method RunOr(ps: seq<Parser>, input: seq<Message>) returns (r: Run)
    ensures r == Or(ps)(input)
  {
    for i := 0 to |ps|
      invariant OrFrom(ps, input) == OrFrom(ps[i..], input)
    {
      var res := ps[i](input);
      if !Fails(res) {
        return res;
      }
      assert ps[i..][1..] == ps[i + 1..];
    }
    return Returns(NoMatch);
  }

  // ----- Regex -----

  /**
   * What `re.FindStringSubmatchIndex` promises of its result on `txt`: pairs
   * of byte offsets, the whole match first, each submatch either inside the
   * text or (-1, -1) when its group took no part in the match.
   */
  predicate IndexPairs(txt: string, m: seq<int>)
  {
    && |m| >= 2 && |m| % 2 == 0
    && 0 <= m[0] <= m[1] <= |txt|
    && forall j :: 1 <= j < |m| / 2 ==>
         (m[2 * j] == -1 && m[2 * j + 1] == -1) || 0 <= m[2 * j] <= m[2 * j + 1] <= |txt|
  }

  /** The Go slice `txt[lo:hi]`; `None` where it panics. */
  function Slice(txt: string, lo: int, hi: int): (r: Wrappers.Option<string>)
    ensures r.Some? <==> 0 <= lo <= hi <= |txt|
  {
    if 0 <= lo <= hi <= |txt| then Wrappers.Some(txt[lo..hi]) else Wrappers.None
  }

  /** The message `Regex` makes for a match of `value` in `msg`: its parent and position are those of `msg`. */
  function Derived(kind: MessageKind, msg: Message, value: string): Message
  {
    Message(kind, Wrappers.Some(msg), [], msg.filename, msg.line, msg.column, value)
  }

  /**
   * The `Regex` closure; `find` stands for `re.FindStringSubmatchIndex` of
   * the compiled pattern and `kind` for what the constructor builds.
   */
  function RegexRun(find: string -> Wrappers.Option<seq<int>>, kind: MessageKind, input: seq<Message>): Run
  {
    if |input| == 0 then Returns(NoMatch)
    else
      var msg := input[0];
      match find(msg.text)
      case None => Returns(NoMatch)
      case Some(m) =>
        var value :=
          if |m| > 2 then (if |m| >= 4 then Slice(msg.text, m[2], m[3]) else Wrappers.None)
          else (if |m| == 2 then Slice(msg.text, m[0], m[1]) else Wrappers.None);
        if value.None? then Panics
        else Returns(Result(true, [Derived(kind, msg, value.value)], 1))
  }

  /** The parser `Regex(pattern, constructor)`. */
  function Regex(find: string -> Wrappers.Option<seq<int>>, kind: MessageKind): Parser
  {
    input => RegexRun(find, kind, input)
  }

  /** On empty input, or when the pattern does not match the first message, `Regex` does not match. */
  lemma RegexNoMatch(find: string -> Wrappers.Option<seq<int>>, kind: MessageKind, input: seq<Message>)
    requires input == [] || find(input[0].text).None?
    ensures Regex(find, kind)(input) == Returns(NoMatch)
  {
  }

  /**
   * On a match in the first message, `Regex` consumes exactly that message
   * and yields one message whose parent is it, whose position is its
   * position, and whose text is the first submatch if the pattern has a
   * group and the whole match otherwise; it panics when that group took no
   * part in the match.
   */
  lemma RegexMatch(find: string -> Wrappers.Option<seq<int>>, kind: MessageKind, input: seq<Message>)
    requires input != [] && find(input[0].text).Some?
    requires IndexPairs(input[0].text, find(input[0].text).value)
    ensures var txt, m := input[0].text, find(input[0].text).value;
      if |m| > 2 && m[2] == -1 then Regex(find, kind)(input) == Panics
      else
        var out := Regex(find, kind)(input);
        && Matches(out) && out.result.consumed == 1 && |out.result.messages| == 1
        && var o := out.result.messages[0];
        && o.kind == kind && o.parent == Wrappers.Some(input[0]) && o.children == []
        && (o.filename, o.line, o.column) == (input[0].filename, input[0].line, input[0].column)
        && o.text == if |m| > 2 then txt[m[2]..m[3]] else txt[m[0]..m[1]]
  {
    var txt, m := input[0].text, find(input[0].text).value;
    if |m| > 2 {
      var j := 1;
      assert j < |m| / 2;
      assert (m[2 * j] == -1 && m[2 * j + 1] == -1) || 0 <= m[2 * j] <= m[2 * j + 1] <= |txt|;
    }
  }

  /** Building the match message through a fresh `DefaultMessage` and its setters, as `Regex` does. */
  method NewDerived(kind: MessageKind, msg: Message, value: string) returns (out: Message)
    ensures out == Derived(kind, msg, value)
  {
    var m := new DefaultMessage(kind);
    m.SetParent(msg);
    m.SetPosition(msg.filename, msg.line, msg.column);
    m.SetText(value);
    out := m.Value();
  }

  // ----- Stage -----

  /**
   * The state of `Stage` between input messages: the buffer, the stashed
   * best result, and (for the proofs) the results flushed so far.
   */
  datatype StageState = StageState(buffer: seq<Message>, best: Wrappers.Option<Result>, flushed: seq<Result>)

  /** What the output channel carries: the messages sent, or a panic of the stage. */
  datatype Staged = Output(messages: seq<Message>) | StagePanics

  /** The messages sent by flushing the results `rs` in order. */
  function Emitted(rs: seq<Result>): seq<Message>
    decreases |rs|
  {
    if rs == [] then [] else Emitted(rs[..|rs| - 1]) + rs[|rs| - 1].messages
  }

  /** The input messages the flushed results `rs` consumed. */
  function ConsumedBy(rs: seq<Result>): int
    decreases |rs|
  {
    if rs == [] then 0 else ConsumedBy(rs[..|rs| - 1]) + rs[|rs| - 1].consumed
  }

  /** The `flush` closure: drop what the best result consumed and send its messages; `None` where the slice panics. */
  function Flush(s: StageState): Wrappers.Option<StageState>
  {
    if s.best.None? then Wrappers.Some(s)
    else
      var c := s.best.value.consumed;
      if 0 <= c <= |s.buffer| then Wrappers.Some(StageState(s.buffer[c..], Wrappers.None, s.flushed + [s.best.value]))
      else Wrappers.None
  }

  /** One turn of the input loop of `Stage`; `None` where it panics. */
  function Accept(fn: Parser, s: StageState, msg: Message): Wrappers.Option<StageState>
  {
    var buffer := s.buffer + [msg];
    match fn(buffer)
    case Panics => Wrappers.None
    case Returns(res) =>
      if res.matched then Wrappers.Some(StageState(buffer, Wrappers.Some(res), s.flushed))
      else Flush(StageState(buffer, s.best, s.flushed))
  }

  /** The state after the input loop has taken every message of `input`. */
  function Accepted(fn: Parser, input: seq<Message>): Wrappers.Option<StageState>
    decreases |input|
  {
    if input == [] then Wrappers.Some(StageState([], Wrappers.None, []))
    else
      match Accepted(fn, input[..|input| - 1])
      case None => Wrappers.None
      case Some(s) => Accept(fn, s, input[|input| - 1])
  }

  /** The state after the final flush. */
  function Drained(fn: Parser, input: seq<Message>): Wrappers.Option<StageState>
  {
    match Accepted(fn, input)
    case None => Wrappers.None
    case Some(s) => Flush(s)
  }

  /** The message that bundles the messages left in the buffer. */
  function UnknownOf(buffer: seq<Message>): Message
  {
    Message(Unknown, Wrappers.None, buffer, "", 0, 0, "")
  }

  /** What `Stage(input, fn)` sends on its output channel. */
  function StageOf(fn: Parser, input: seq<Message>): Staged
  {
    match Drained(fn, input)
    case None => StagePanics
    case Some(s) => Output(Emitted(s.flushed) + if s.buffer == [] then [] else [UnknownOf(s.buffer)])
  }

  /** The `flush` closure on the method's variables. */
  method FlushBest(buffer: seq<Message>, best: Wrappers.Option<Result>, output: seq<Message>, ghost flushed: seq<Result>)
    returns (ok: bool, buffer': seq<Message>, output': seq<Message>, ghost flushed': seq<Result>)
    requires output == Emitted(flushed)
    ensures ok <==> Flush(StageState(buffer, best, flushed)).Some?
    ensures ok ==> Flush(StageState(buffer, best, flushed)) == Wrappers.Some(StageState(buffer', Wrappers.None, flushed'))
    ensures ok ==> output' == Emitted(flushed')
  {
    buffer', output', flushed' := buffer, output, flushed;
    ok := true;
    if best.Some? {
      var c := best.value.consumed;
      if !(0 <= c <= |buffer|) {
        return false, buffer, output, flushed;
      }
      buffer' := buffer[c..];
      output' := output + best.value.messages;
      flushed' := flushed + [best.value];
      assert flushed'[..|flushed'| - 1] == flushed;
    }
  }

  /** Once the input loop has panicked, it stays panicked. */
  lemma {:induction false} PanicSticks(fn: Parser, input: seq<Message>, i: nat)
    requires i <= |input| && Accepted(fn, input[..i]).None?
    ensures Accepted(fn, input).None?
    decreases |input| - i
  {
    if i < |input| {
      assert input[..i + 1][..i] == input[..i];
      PanicSticks(fn, input, i + 1);
    } else {
      assert input[..i] == input;
    }
  }

  /** The goroutine of `Stage` over a finite input. */
  method Stage(input: seq<Message>, fn: Parser) returns (r: Staged)
    ensures r == StageOf(fn, input)
  {
    var buffer: seq<Message> := [];
    var best: Wrappers.Option<Result> := Wrappers.None;
    var output: seq<Message> := [];
    ghost var flushed: seq<Result> := [];
    for i := 0 to |input|
      invariant Accepted(fn, input[..i]) == Wrappers.Some(StageState(buffer, best, flushed))
      invariant output == Emitted(flushed)
    {
      assert input[..i + 1][..i] == input[..i];
      buffer := buffer + [input[i]];
      var res := fn(buffer);
      if res.Panics? {
        PanicSticks(fn, input, i + 1);
        return StagePanics;
      }
      if res.result.matched {
        best := Wrappers.Some(res.result);
      } else if best.Some? {
        var ok;
        ok, buffer, output, flushed := FlushBest(buffer, best, output, flushed);
        if !ok {
          PanicSticks(fn, input, i + 1);
          return StagePanics;
        }
        best := Wrappers.None;
      }
    }
    assert input[..|input|] == input;
    var ok;
    ok, buffer, output, flushed := FlushBest(buffer, best, output, flushed);
    if !ok {
      return StagePanics;
    }
    if |buffer| > 0 {
      output := output + [UnknownOf(buffer)];
    }
    return Output(output);
  }

  /**
   * A parser that never panics and never claims to consume more messages
   * than it was given (or a negative number of them).
   */
  ghost predicate WellBehaved(fn: Parser)
  {
    forall buf :: fn(buf).Returns? && (fn(buf).result.matched ==> 0 <= fn(buf).result.consumed <= |buf|)
  }

  /** The invariant of the input loop: nothing lost, the buffer is the unconsumed tail. */
  ghost predicate Conserved(s: StageState, input: seq<Message>)
  {
    && ConsumedBy(s.flushed) + |s.buffer| == |input|
    && |s.buffer| <= |input|
    && s.buffer == input[|input| - |s.buffer|..]
    && (forall r :: r in s.flushed ==> r.matched)
    && (s.best.Some? ==> s.best.value.matched && 0 <= s.best.value.consumed <= |s.buffer|)
  }

  lemma FlushConserves(s: StageState, input: seq<Message>)
    requires Conserved(s, input)
    ensures Flush(s).Some? && Conserved(Flush(s).value, input) && Flush(s).value.best.None?
  {
    if s.best.Some? {
      var f := Flush(s).value;
      assert f.flushed[..|f.flushed| - 1] == s.flushed;
      var c := s.best.value.consumed;
      assert f.buffer == input[|input| - |f.buffer|..] by {
        assert input[|input| - |f.buffer|..] == input[|input| - |s.buffer|..][c..];
      }
    }
  }

  lemma {:induction false} AcceptedConserves(fn: Parser, input: seq<Message>)
    requires WellBehaved(fn)
    ensures Accepted(fn, input).Some? && Conserved(Accepted(fn, input).value, input)
    decreases |input|
  {
    if input != [] {
      var init := input[..|input| - 1];
      AcceptedConserves(fn, init);
      var s := Accepted(fn, init).value;
      var buffer := s.buffer + [input[|input| - 1]];
      var res := fn(buffer);
      assert res.Returns?;
      assert buffer == input[|input| - |buffer|..] by {
        assert input == init + [input[|input| - 1]];
      }
      var s' := StageState(buffer, s.best, s.flushed);
      assert Conserved(s', input);
      if !res.result.matched {
        FlushConserves(s', input);
      }
    }
  }

  /**
   * With a well-behaved parser `Stage` does not panic and loses no message:
   * the results it flushes consumed, in total, all the input but the
   * unconsumed tail; those results, in order, give the messages sent; and
   * the tail is sent once, after them, as one `Unknown` message holding
   * exactly those input messages, and only if it is not empty.
   */
  lemma StageConserves(fn: Parser, input: seq<Message>)
    requires WellBehaved(fn)
    ensures Drained(fn, input).Some?
    ensures var d := Drained(fn, input).value;
      && ConsumedBy(d.flushed) + |d.buffer| == |input|
      && |d.buffer| <= |input|
      && d.buffer == input[|input| - |d.buffer|..]
      && (forall r :: r in d.flushed ==> r.matched)
      && StageOf(fn, input) == Output(Emitted(d.flushed) + if d.buffer == [] then [] else [UnknownOf(d.buffer)])
  {
    AcceptedConserves(fn, input);
    FlushConserves(Accepted(fn, input).value, input);
  }

  /**
   * A stashed result is flushed only when a new message breaks the match:
   * while the parser matches, nothing is sent; when it stops matching, the
   * stashed result (if any) is flushed, dropping the messages it consumed
   * from the front of the buffer and sending its messages.
   */
  lemma AcceptFlushesOnBreak(fn: Parser, s: StageState, msg: Message)
    requires Accept(fn, s, msg).Some?
    ensures var t, buffer := Accept(fn, s, msg).value, s.buffer + [msg];
      if fn(buffer).result.matched || s.best.None? then t.flushed == s.flushed && t.buffer == buffer
      else t.flushed == s.flushed + [s.best.value] && t.buffer == buffer[s.best.value.consumed..] && t.best.None?
  {
  }

  /**
   * While the parser keeps matching the growing buffer, nothing is flushed:
   * the whole input stays buffered and the latest result is stashed.
   */
  lemma {:induction false} MatchingDefers(fn: Parser, input: seq<Message>)
    requires forall k :: 1 <= k <= |input| ==> Matches(fn(input[..k]))
    ensures Accepted(fn, input).Some? && Accepted(fn, input).value.buffer == input && Accepted(fn, input).value.flushed == []
    ensures input == [] ==> Accepted(fn, input).value.best.None?
    ensures input != [] ==> Matches(fn(input)) && Accepted(fn, input).value.best == Wrappers.Some(fn(input).result)
    decreases |input|
  {
    if input != [] {
      var init := input[..|input| - 1];
      forall k | 1 <= k <= |init| ensures Matches(fn(init[..k])) {
        assert init[..k] == input[..k];
      }
      MatchingDefers(fn, init);
      assert init + [input[|input| - 1]] == input;
      assert Matches(fn(input[..|input|]));
      assert input[..|input|] == input;
    }
  }

  // ----- the test's pipeline -----

  /** `re.FindStringSubmatchIndex` of the pattern `^Hello`. */
  function HelloPrefix(txt: string): Wrappers.Option<seq<int>>
  {
    if |txt| >= 5 && txt[..5] == "Hello" then Wrappers.Some([0, 5]) else Wrappers.None
  }

  function TextMessage(text: string): Message
  {
    Message(Plain, Wrappers.None, [], "", 0, 0, text)
  }

  /** The stage of `TestRegex`: the message `Hello, World!` comes out as one message with text `Hello`. */
  lemma HelloStage()
    ensures StageOf(Regex(HelloPrefix, Plain), [TextMessage("Hello, World!")])
         == Output([Derived(Plain, TextMessage("Hello, World!"), "Hello")])
  {
    var input := [TextMessage("Hello, World!")];
    assert input[..0] == [];
    assert "Hello, World!"[..5] == "Hello";
    var s := Accepted(Regex(HelloPrefix, Plain), input).value;
    assert s.flushed == [] && s.buffer == input;
    var d := Drained(Regex(HelloPrefix, Plain), input).value;
    assert d.buffer == [] && |d.flushed| == 1;
    assert Emitted(d.flushed) == Emitted([]) + d.flushed[0].messages;
  }

  /**
   * `Stage` parses only from the front of its buffer and never re-parses
   * after a flush: with `Regex(^Hello)`, two messages `Hello` give the match
   * of the first one, and the second ends up in the `Unknown` message.
   */
  lemma RepeatedHello()
    ensures StageOf(Regex(HelloPrefix, Plain), [TextMessage("Hello"), TextMessage("Hello")])
         == Output([Derived(Plain, TextMessage("Hello"), "Hello"), UnknownOf([TextMessage("Hello")])])
  {
    var fn, h := Regex(HelloPrefix, Plain), TextMessage("Hello");
    var input := [h, h];
    assert "Hello"[..5] == "Hello";
    assert input[..1] == [h] && input[..1][..0] == [];
    assert [h][..0] == [] && [h, h][..1] == [h];
    var r := Result(true, [Derived(Plain, h, "Hello")], 1);
    assert fn([h]) == Returns(r);
    assert fn([h, h]) == Returns(r);
    assert [] + [h] == [h] && [h] + [h] == [h, h] && [h, h][1..] == [h] && [] + [r] == [r];
    assert Accepted(fn, [h]) == Wrappers.Some(StageState([h], Wrappers.Some(r), []));
    assert Accepted(fn, input) == Wrappers.Some(StageState([h, h], Wrappers.Some(r), []));
    assert Drained(fn, input) == Wrappers.Some(StageState([h], Wrappers.None, [r]));
    assert Emitted([r]) == Emitted([]) + r.messages;
  }
}
