/**
 * The combinator-parser nodes (combinator-parser/coparse.go): a `Scanner`
 * spanning part of the input bytes, the embeddable `NodeBase` and the `And`
 * combinator `AndT`.
 *
 * A node is an object whose fields the methods update in place. The two
 * node types of the file, `NodeBase` and `AndT` (which embeds it), are one
 * class told apart by `kind`; `Parse` dispatches on it. The ghost field
 * `repr` is the node with everything below it, and `Valid` says no node
 * reaches back to itself, which is what the recursion of `AndT.Parse`
 * relies on to end. Two children may share nodes (`And(x, x)`);
 * `SiblingsDisjoint` says when they do not.
 */
module Coparse {
  import Wrappers

  /** A span `[start, end)` of `src`, with the line and column it starts at. */
  datatype Scanner = Scanner(start: int, end: int, line: int, column: int, src: seq<Wrappers.byte>)

  /** `Scanner.String`: the bytes spanned, or `None` where the Go slice `src[Start:End]` panics. */
  function String(s: Scanner): (r: Wrappers.Option<seq<Wrappers.byte>>)
    ensures r.Some? <==> 0 <= s.start <= s.end <= |s.src|
    ensures r.Some? ==> |r.value| == s.end - s.start && forall i :: 0 <= i < |r.value| ==> r.value[i] == s.src[s.start + i]
  {
    if 0 <= s.start <= s.end <= |s.src| then Wrappers.Some(s.src[s.start..s.end]) else Wrappers.None
  }

  /** `CloneScanner`: a copy with the same four positions over the same bytes. */
  function CloneScanner(s: Scanner): (c: Scanner)
    ensures c == s
  {
    Scanner(s.start, s.end, s.line, s.column, s.src)
  }

  /** The message `NodeBase.Parse` leaves. */
  const NotImplemented := "Parse() not implemented"

  datatype NodeKind = Base | And

  class Node {
    const kind: NodeKind
    var scanner: Scanner
    var msg: string
    var children: seq<Node?>
    ghost var repr: set<Node>

    /** A node with the given scanner, no message and no children (a Go composite literal). */
    constructor (kind: NodeKind, scanner: Scanner)
      ensures this.kind == kind && this.scanner == scanner && msg == "" && children == []
      ensures Valid() && repr == {this}
    {
      this.kind := kind;
      this.scanner := scanner;
      msg := "";
      children := [];
      repr := {this};
    }

    /**
     * The nodes below form an acyclic graph: every non-nil child lies in
     * `repr`, does not reach back to this node, and is itself valid.
     */
    ghost predicate Valid()
      reads this`children, this`repr, repr`children, repr`repr
      decreases repr
    {
      && this in repr
      && (forall i :: 0 <= i < |children| && children[i] != null ==>
            && children[i] in repr && children[i].repr <= repr && this !in children[i].repr
            && children[i].Valid())
    }

    /** No two non-nil children share a node. */
    ghost predicate SiblingsDisjoint()
      reads this`children, children
    {
      forall i, j :: 0 <= i < j < |children| && children[i] != null && children[j] != null ==>
        children[i].repr !! children[j].repr
    }

    /**
     * Whether `Parse` succeeds: a `NodeBase` never does; an `AndT` does
     * exactly when every non-nil child does.
     */
    ghost predicate Succeeds()
      requires Valid()
      reads this`children, this`repr, repr`children, repr`repr
      decreases repr
    {
      kind == And && forall i :: 0 <= i < |children| && children[i] != null ==> children[i].Succeeds()
    }

    /** `Error`: the node's error message. */
    function Error(): string
      reads this`msg
    {
      msg
    }

    /** `FromBytes`: a scanner at position zero over `buf`. */
    method FromBytes(buf: seq<Wrappers.byte>)
      modifies this`scanner
      ensures scanner == Scanner(0, 0, 0, 0, buf)
    {
      scanner := Scanner(0, 0, 0, 0, buf);
    }

    /**
     * `NodeBase.Clone` (also what an `AndT` answers, as it embeds
     * `NodeBase`): a new `NodeBase` with a copy of the scanner and neither
     * the message nor the children.
     */
    method Clone() returns (c: Node)
      ensures fresh(c) && c.kind == Base && c.scanner == scanner && c.msg == "" && c.children == []
      ensures c.Valid() && c.repr == {c}
    {
      c := new Node(Base, CloneScanner(scanner));
    }

    /** The non-nil nodes of `cs` are valid (they may share nodes). */
    static ghost predicate Forest(cs: seq<Node?>)
      reads cs, Reprs(cs)
    {
      forall i :: 0 <= i < |cs| && cs[i] != null ==> cs[i].Valid()
    }

    /** The footprints of the non-nil nodes of `cs`. */
    static ghost function Reprs(cs: seq<Node?>): set<Node>
      reads cs
    {
      set i, n | 0 <= i < |cs| && cs[i] != null && n in cs[i].repr :: n
    }

    /**
     * The nodes `cs` can be added below this node and keep it valid: each
     * is valid and none reaches back to this node.
     */
    ghost predicate Adoptable(cs: seq<Node?>)
      reads cs, Reprs(cs)
    {
      Forest(cs) && forall i :: 0 <= i < |cs| && cs[i] != null ==> this !in cs[i].repr
    }

    /** `AddChildren`: the new children follow the old ones, in order; a valid node stays valid when they are adoptable. */
    method AddChildren(cs: seq<Node?>)
      modifies this`children, this`repr
      ensures children == old(children) + cs
      ensures repr == old(repr) + old(Reprs(cs))
      ensures old(Valid()) && old(Adoptable(cs)) ==> Valid()
    {
      ghost var wasValid := Valid();
      ghost var adoptable := Adoptable(cs);
      ghost var added := Reprs(cs);
      ghost var old_children := children;
      ghost var old_repr := repr;
      children := children + cs;
      repr := repr + added;
      if wasValid && adoptable {
        forall i | 0 <= i < |children| && children[i] != null
          ensures children[i] in repr && children[i].repr <= repr && this !in children[i].repr && children[i].Valid()
        {
          if i >= |old_children| {
            assert children[i] == cs[i - |old_children|];
          }
        }
      }
    }

    /**
     * `Parse`. A `NodeBase` fails with the message "Parse() not
     * implemented". An `AndT` parses its non-nil children in order, skipping
     * nil ones, and stops at the first that fails, taking over its error
     * message. Success changes no message anywhere below; a failure sets
     * messages only to "Parse() not implemented", and, when no two children
     * share a node, leaves the children after the failing one as they were.
     * A shared node is parsed each time it is reached.
     */
    method Parse() returns (ok: bool)
      requires Valid()
      modifies repr`msg
      ensures ok == Succeeds()
      ensures ok ==> forall n :: n in repr ==> n.msg == old(n.msg)
      ensures !ok ==> msg == NotImplemented && forall n :: n in repr ==> n.msg == old(n.msg) || n.msg == NotImplemented
      ensures SiblingsDisjoint() ==>
                forall i, j :: 0 <= i < j < |children| && children[i] != null && children[j] != null && !children[i].Succeeds() ==>
                  forall n :: n in children[j].repr ==> n.msg == old(n.msg)
      decreases repr
    {
      if kind == Base {
        msg := NotImplemented;
        return false;
      }
      for i := 0 to |children|
        invariant forall j :: 0 <= j < i && children[j] != null ==> children[j].Succeeds()
        invariant forall n :: n in repr ==> n.msg == old(n.msg)
      {
        var child := children[i];
        if child != null {
          var childOk := child.Parse();
          if !childOk {
            msg := child.Error();
            if SiblingsDisjoint() {
              forall j, k | 0 <= j < k < |children| && children[j] != null && children[k] != null && !children[j].Succeeds()
                ensures forall n :: n in children[k].repr ==> n.msg == old(n.msg)
              {
                assert j >= i;
                assert children[i].repr !! children[k].repr;
              }
            }
            return false;
          }
        }
      }
      return true;
    }
  }

  /** `Try`: parses a clone of `node` and returns the clone; `node` itself is left as it was. */
  method Try(node: Node) returns (parsed: Node, ok: bool)
    ensures ok == false && parsed != node && parsed.kind == Base
    ensures parsed.scanner == node.scanner && parsed.msg == NotImplemented && parsed.children == []
  {
    parsed := node.Clone();
    ok := parsed.Parse();
  }

  /** `And`: a new `AndT` whose children are `cs`, in order. */
  method NewAnd(cs: seq<Node?>) returns (n: Node)
    ensures fresh(n) && n.kind == And && n.children == cs && n.msg == "" && n.scanner == Scanner(0, 0, 0, 0, [])
    ensures n.repr == {n} + old(Node.Reprs(cs))
    ensures old(Node.Forest(cs)) ==> n.Valid()
  {
    ghost var forest := Node.Forest(cs);
    n := new Node(And, Scanner(0, 0, 0, 0, []));
    if forest {
      assert Node.Forest(cs);
      assert n.Adoptable(cs);
    }
    n.AddChildren(cs);
  }

  /**
   * `And(x, x)` over a `NodeBase` `x`: the graph is valid though the two
   * children share `x`, parsing it ends, and it fails with `x`'s message.
   */
  method ParseSharedChild(scanner: Scanner) returns (ok: bool, msg: string)
    ensures !ok && msg == NotImplemented
  {
    var x := new Node(Base, scanner);
    assert [x, x][0] == x && [x, x][1] == x;
    assert Node.Reprs([x, x]) == x.repr;
    var n := NewAnd([x, x]);
    ok := n.Parse();
    msg := n.Error();
  }
}
