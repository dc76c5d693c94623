/**
 * The syscall tree of the grid kernel (grid-cli/v2-syscall-tree/module.go):
 * a trie keyed by the string parameters of a message, whose nodes hold the
 * modules that handle messages with that parameter path, and the kernel's
 * consultation of the modules of the deepest matching node.
 *
 * The trie of `SyscallNode` pointers is kept as one map from the path of
 * each node (the keys leading to it from the root) to the node's modules:
 * the node reached from `path` through key `k` is `path + [k]`. A module is
 * a value: the local cache module, a module given by its two replies, or
 * nil.
 */
module SyscallTree {
  import opened Wrappers

  /** What `HandleMessage` returns: `Parms[0]` with the payload's "message", or an error, or a panic. */
  datatype Reply = Reply(accepted: bool, message: string)
  datatype Handling = Replied(reply: Reply) | Errs(error: string) | Panics

  /**
   * `Module`: the `LocalCacheModule`, a module whose code is not part of
   * this model (given by its replies in test mode and otherwise), or a nil
   * module, whose call panics.
   */
  datatype Module = LocalCache(cacheDir: string) | Foreign(test: Handling, live: Handling) | NilModule

  /** `HandleMessage(ctx, test, in)`. */
  function HandleMessage(m: Module, test: bool): Handling
  {
    match m
    case LocalCache(_) => if test then Replied(Reply(true, "Acceptable")) else Replied(Reply(true, "Handled"))
    case Foreign(t, r) => if test then t else r
    case NilModule => Panics
  }

  /** `LocalCacheModule` accepts every message in test mode and reports every one handled otherwise. */
  lemma LocalCacheAlwaysAccepts(dir: string, test: bool)
    ensures var h := HandleMessage(LocalCache(dir), test);
      h.Replied? && h.reply.accepted && h.reply.message == (if test then "Acceptable" else "Handled")
  {
  }

  /** The nodes of the trie by path: the root `[]` is there, and so is the parent of every other node. */
  ghost predicate Trie(nodes: map<seq<string>, seq<Module>>)
  {
    && [] in nodes
    && forall p, k :: p + [k] in nodes ==> p in nodes
  }

  /** How far the descent of `consultModules` goes from prefix length `i`: while the next child exists. */
  function DepthFrom(nodes: map<seq<string>, seq<Module>>, parms: seq<string>, i: nat): (d: nat)
    requires i <= |parms|
    ensures i <= d <= |parms|
    decreases |parms| - i
  {
    if i < |parms| && parms[..i + 1] in nodes then DepthFrom(nodes, parms, i + 1) else i
  }

  function Depth(nodes: map<seq<string>, seq<Module>>, parms: seq<string>): nat
  {
    DepthFrom(nodes, parms, 0)
  }

  /**
   * The descent passes only through nodes of the trie and stops at the
   * first parameter with no child, or at the end of the parameters.
   */
  lemma {:induction false} DescentStops(nodes: map<seq<string>, seq<Module>>, parms: seq<string>, i: nat)
    requires i <= |parms| && forall j :: 0 <= j <= i ==> parms[..j] in nodes
    ensures var d := DepthFrom(nodes, parms, i);
      && (forall j :: 0 <= j <= d ==> parms[..j] in nodes)
      && (d == |parms| || parms[..d + 1] !in nodes)
    decreases |parms| - i
  {
    if i < |parms| && parms[..i + 1] in nodes {
      DescentStops(nodes, parms, i + 1);
    }
  }

  /** The paths of the nodes at depth `i` or less along `parms`. */
  function PathTo(parms: seq<string>, i: nat): set<seq<string>>
  {
    set j | 0 <= j <= i && j <= |parms| :: parms[..j]
  }

  /** The trie after `i` steps of the loop of `addSyscall`: each missing node on the path so far made, with no module. */
  function Grown(nodes: map<seq<string>, seq<Module>>, parms: seq<string>, i: nat): map<seq<string>, seq<Module>>
  {
    map p | p in nodes.Keys + PathTo(parms, i) :: if p in nodes then nodes[p] else []
  }

  /** No step taken, nothing grown. */
  lemma GrownNone(nodes: map<seq<string>, seq<Module>>, parms: seq<string>)
    requires [] in nodes
    ensures Grown(nodes, parms, 0) == nodes
  {
    assert parms[..0] == [];
    assert PathTo(parms, 0) == {[]};
  }

  /** One step of the loop: the child along the next parameter is made when missing. */
  lemma GrownStep(nodes: map<seq<string>, seq<Module>>, parms: seq<string>, i: nat)
    requires i < |parms|
    ensures var g := Grown(nodes, parms, i);
      Grown(nodes, parms, i + 1) == if parms[..i + 1] in g then g else g[parms[..i + 1] := []]
  {
    assert PathTo(parms, i + 1) == PathTo(parms, i) + {parms[..i + 1]};
  }

  /** The trie after `addSyscall(parms...)` calls that append `ms`: the path made, and `ms` appended to the node at its end. */
  function Registered(nodes: map<seq<string>, seq<Module>>, parms: seq<string>, ms: seq<Module>): map<seq<string>, seq<Module>>
  {
    map p | p in nodes.Keys + PathTo(parms, |parms|) ::
      (if p in nodes then nodes[p] else []) + (if p == parms then ms else [])
  }

  /** Registering is growing the whole path and then appending to its last node. */
  lemma RegisteredGrown(nodes: map<seq<string>, seq<Module>>, parms: seq<string>, ms: seq<Module>)
    ensures var g := Grown(nodes, parms, |parms|);
      parms in g && Registered(nodes, parms, ms) == g[parms := g[parms] + ms]
  {
    assert parms[..|parms|] == parms;
    assert parms in PathTo(parms, |parms|);
    var g := Grown(nodes, parms, |parms|);
    var r := Registered(nodes, parms, ms);
    assert r.Keys == g.Keys;
    forall p | p in r ensures r[p] == g[parms := g[parms] + ms][p] {
    }
  }

  /** Registering the same path again appends to what the first registration appended. */
  lemma RegisteredAgain(nodes: map<seq<string>, seq<Module>>, parms: seq<string>, ms: seq<Module>, m: Module)
    ensures Registered(Registered(nodes, parms, ms), parms, [m]) == Registered(nodes, parms, ms + [m])
  {
    var r := Registered(nodes, parms, ms);
    var a := Registered(r, parms, [m]);
    var b := Registered(nodes, parms, ms + [m]);
    assert a.Keys == b.Keys;
    forall p | p in a ensures a[p] == b[p] {
    }
  }

  /** `n` copies of `m`. */
  function Copies(m: Module, n: nat): (r: seq<Module>)
    ensures |r| == n && forall i :: 0 <= i < n ==> r[i] == m
  {
    if n == 0 then [] else Copies(m, n - 1) + [m]
  }

  /**
   * Registering puts the whole path in the trie, creating only missing
   * nodes and replacing none; it appends the modules to the last node of the
   * path and changes no other node's modules; afterwards the descent along
   * the same parameters reaches that node.
   */
  lemma RegisteredPath(nodes: map<seq<string>, seq<Module>>, parms: seq<string>, ms: seq<Module>)
    requires Trie(nodes)
    ensures var r := Registered(nodes, parms, ms);
      && Trie(r)
      && r.Keys == nodes.Keys + PathTo(parms, |parms|)
      && parms in r
      && r[parms] == (if parms in nodes then nodes[parms] else []) + ms
      && (forall p :: p in nodes && p != parms ==> r[p] == nodes[p])
      && (forall p :: p in r && p !in nodes && p != parms ==> r[p] == [])
      && Depth(r, parms) == |parms|
  {
    var r := Registered(nodes, parms, ms);
    assert parms[..|parms|] == parms;
    assert parms in PathTo(parms, |parms|);
    forall p, k | p + [k] in r ensures p in r {
      if p + [k] !in nodes {
        var j :| 0 <= j <= |parms| && p + [k] == parms[..j];
        assert p == parms[..j - 1];
      }
    }
    forall j | 0 <= j <= |parms| ensures parms[..j] in r {
      assert parms[..j] in PathTo(parms, |parms|);
    }
    DepthReaches(r, parms, 0);
  }

  /** When every prefix of the parameters is a node, the descent goes to the end. */
  lemma {:induction false} DepthReaches(nodes: map<seq<string>, seq<Module>>, parms: seq<string>, i: nat)
    requires i <= |parms| && forall j :: 0 <= j <= |parms| ==> parms[..j] in nodes
    ensures DepthFrom(nodes, parms, i) == |parms|
    decreases |parms| - i
  {
    if i < |parms| {
      DepthReaches(nodes, parms, i + 1);
    }
  }

  /** Module `m` answers a test call with an accepting promise. */
  predicate Promises(m: Module)
  {
    var h := HandleMessage(m, true);
    h.Replied? && h.reply.accepted
  }

  /** The modules that promise, in order, or `None` when a test call panics. */
  function Promising(mods: seq<Module>): Option<seq<Module>>
  {
    if mods == [] then Some([])
    else match Promising(mods[..|mods| - 1])
      case None => None
      case Some(ps) =>
        var m := mods[|mods| - 1];
        if HandleMessage(m, true).Panics? then None
        else if Promises(m) then Some(ps + [m]) else Some(ps)
  }

  /**
   * The test calls panic exactly when one module's does; otherwise the
   * promising modules are those of `mods` that promise, in their order.
   */
  lemma {:induction false} PromisingFilters(mods: seq<Module>)
    ensures Promising(mods).Some? <==> forall i :: 0 <= i < |mods| ==> !HandleMessage(mods[i], true).Panics?
    ensures Promising(mods).Some? ==> var ps := Promising(mods).value;
      && |ps| <= |mods|
      && (forall m :: m in ps ==> m in mods && Promises(m))
      && (forall i :: 0 <= i < |mods| && Promises(mods[i]) ==> mods[i] in ps)
  {
    if mods != [] {
      var init := mods[..|mods| - 1];
      PromisingFilters(init);
      assert forall i :: 0 <= i < |init| ==> init[i] == mods[i];
      assert mods == init + [mods[|mods| - 1]];
    }
  }

  /** The modules of `mods` that promise, in their order: the filter, written front to back. */
  function Kept(mods: seq<Module>): seq<Module>
  {
    if mods == [] then [] else (if Promises(mods[0]) then [mods[0]] else []) + Kept(mods[1..])
  }

  lemma {:induction false} KeptSnoc(mods: seq<Module>, m: Module)
    ensures Kept(mods + [m]) == Kept(mods) + (if Promises(m) then [m] else [])
  {
    if mods != [] {
      assert (mods + [m])[1..] == mods[1..] + [m];
      KeptSnoc(mods[1..], m);
    }
  }

  /** When no test call panics, the promising modules are exactly the filter of `mods` by their promise, in order. */
  lemma {:induction false} PromisingKeeps(mods: seq<Module>)
    requires forall i :: 0 <= i < |mods| ==> !HandleMessage(mods[i], true).Panics?
    ensures Promising(mods) == Some(Kept(mods))
  {
    if mods != [] {
      var init := mods[..|mods| - 1];
      assert forall i :: 0 <= i < |init| ==> init[i] == mods[i];
      PromisingKeeps(init);
      var m := mods[|mods| - 1];
      KeptSnoc(init, m);
      assert mods == init + [m];
      assert !HandleMessage(m, true).Panics?;
      assert Promising(init) == Some(Kept(init));
      assert mods[..|mods| - 1] == init;
      assert Promising(mods) == if Promises(m) then Some(Kept(init) + [m]) else Some(Kept(init));
      assert Kept(init) + [] == Kept(init);
    }
  }

  /** The answer of `consultModules`. */
  datatype Consulted = Handled | Failed(error: string) | ConsultPanics

  const NoHandler := "no module could handle the request"

  /** The second loop: the first promising module whose real call reports handled. */
  function FirstHandler(ps: seq<Module>): Consulted
  {
    if ps == [] then Failed(NoHandler)
    else
      var h := HandleMessage(ps[0], false);
      if h.Panics? then ConsultPanics
      else if h.Replied? && h.reply.accepted then Handled
      else FirstHandler(ps[1..])
  }

  /** A real call that reports the message handled. */
  predicate Handles(m: Module)
  {
    var h := HandleMessage(m, false);
    h.Replied? && h.reply.accepted
  }

  /**
   * The answer is "Handled" exactly when some module handles the message
   * and no module before it panics, and the error exactly when no module
   * handles it or panics.
   */
  lemma {:induction false} FirstHandlerFinds(ps: seq<Module>)
    ensures FirstHandler(ps) == Handled <==>
      exists j :: 0 <= j < |ps| && Handles(ps[j]) && forall k :: 0 <= k < j ==> !HandleMessage(ps[k], false).Panics?
    ensures FirstHandler(ps) == Failed(NoHandler) <==>
      forall k :: 0 <= k < |ps| ==> !Handles(ps[k]) && !HandleMessage(ps[k], false).Panics?
    ensures FirstHandler(ps).Handled? || FirstHandler(ps).ConsultPanics? || FirstHandler(ps) == Failed(NoHandler)
  {
    if ps != [] {
      FirstHandlerFinds(ps[1..]);
      assert forall k :: 0 <= k < |ps| - 1 ==> ps[1..][k] == ps[k + 1];
      if FirstHandler(ps[1..]) == Handled && !HandleMessage(ps[0], false).Panics? && !Handles(ps[0]) {
        var j :| 0 <= j < |ps| - 1 && Handles(ps[1..][j]) && forall k :: 0 <= k < j ==> !HandleMessage(ps[1..][k], false).Panics?;
        assert Handles(ps[j + 1]) && forall k :: 0 <= k < j + 1 ==> !HandleMessage(ps[k], false).Panics?;
      }
      if exists j :: 0 <= j < |ps| && Handles(ps[j]) && forall k :: 0 <= k < j ==> !HandleMessage(ps[k], false).Panics? {
        var j :| 0 <= j < |ps| && Handles(ps[j]) && forall k :: 0 <= k < j ==> !HandleMessage(ps[k], false).Panics?;
        if j > 0 && !Handles(ps[0]) {
          assert Handles(ps[1..][j - 1]) && forall k :: 0 <= k < j - 1 ==> !HandleMessage(ps[1..][k], false).Panics?;
        }
      }
    }
  }

  /** The module `knownMessages[name]`, nil for a name not in the map. */
  function Known(known: map<string, Module>, name: string): Module
  {
    if name in known then known[name] else NilModule
  }

  /** The node the descent reaches, by its path. */
  function Reached(nodes: map<seq<string>, seq<Module>>, parms: seq<string>): seq<string>
  {
    parms[..Depth(nodes, parms)]
  }

  /** The modules of the node the descent reaches. */
  function ModulesAt(nodes: map<seq<string>, seq<Module>>, parms: seq<string>): seq<Module>
  {
    var at := Reached(nodes, parms);
    if at in nodes then nodes[at] else []
  }

  /**
   * The answer of `consultModules` for a message with parameters `parms`:
   * a panic when a test call panics, or when a module promises and there
   * are no parameters (`addSyscall` then indexes `parms[0]`); otherwise
   * the first promising module that handles the message.
   */
  function Consult(nodes: map<seq<string>, seq<Module>>, parms: seq<string>): Consulted
  {
    match Promising(ModulesAt(nodes, parms))
    case None => ConsultPanics
    case Some(ps) => if ps != [] && parms == [] then ConsultPanics else FirstHandler(ps)
  }

  /**
   * How many modules of `mods` the test loop registers: the promising
   * modules before the first test call that panics, or all of them when
   * none panics.
   */
  function Registrations(mods: seq<Module>): nat
  {
    if mods == [] then 0
    else match Promising(mods)
      case Some(ps) => |ps|
      case None => Registrations(mods[..|mods| - 1])
  }

  /** The trie after `k` registrations of the path `parms`; with no parameters `addSyscall` panics at once and changes nothing. */
  function RegisteredTimes(nodes: map<seq<string>, seq<Module>>, known: map<string, Module>, parms: seq<string>, k: nat): map<seq<string>, seq<Module>>
  {
    if k == 0 || parms == [] then nodes else Registered(nodes, parms, Copies(Known(known, parms[0]), k))
  }

  /**
   * The trie after `consultModules`, whether it returns or panics: one
   * registration of the path for each promising module whose test call
   * came before the first one that panics.
   */
  function AfterConsult(nodes: map<seq<string>, seq<Module>>, known: map<string, Module>, parms: seq<string>): map<seq<string>, seq<Module>>
  {
    RegisteredTimes(nodes, known, parms, Registrations(ModulesAt(nodes, parms)))
  }

  /** The promising modules of a prefix of `mods` are a prefix of those of `mods`. */
  lemma {:induction false} PromisingPrefix(mods: seq<Module>, j: nat)
    requires j <= |mods|
    ensures Promising(mods).Some? ==> Promising(mods[..j]).Some? && Promising(mods[..j]).value <= Promising(mods).value
  {
    if j < |mods| {
      var init := mods[..|mods| - 1];
      PromisingPrefix(init, j);
      assert init[..j] == mods[..j];
    } else {
      assert mods[..j] == mods;
    }
  }

  /**
   * When the test call of `mods[j]` panics, the registrations made are
   * those of the modules promising before it, whatever follows.
   */
  lemma {:induction false} RegistrationsBeforePanic(mods: seq<Module>, j: nat)
    requires j < |mods| && Promising(mods[..j]).Some? && HandleMessage(mods[j], true).Panics?
    ensures Promising(mods).None?
    ensures Registrations(mods) == |Promising(mods[..j]).value|
  {
    var init := mods[..|mods| - 1];
    if j + 1 == |mods| {
      assert init == mods[..j];
    } else {
      assert init[..j] == mods[..j] && init[j] == mods[j];
      RegistrationsBeforePanic(init, j);
    }
  }

  /** Modules `[LocalCache(d), nil]`: the local cache module promises and is registered, then the nil module's test call panics. */
  lemma RegistrationsExample(d: string)
    ensures Promising([LocalCache(d), NilModule]).None?
    ensures Registrations([LocalCache(d), NilModule]) == 1
  {
    var mods := [LocalCache(d), NilModule];
    assert mods[..1] == [LocalCache(d)];
    assert [LocalCache(d)][..0] == [];
    RegistrationsBeforePanic(mods, 1);
  }

  /** Once the promising modules are known, the answer is the first handler's, and the trie is registered once per module. */
  lemma ConsultOfPromising(nodes: map<seq<string>, seq<Module>>, known: map<string, Module>, parms: seq<string>, ps: seq<Module>)
    requires Promising(ModulesAt(nodes, parms)) == Some(ps)
    requires parms == [] ==> ps == []
    ensures Consult(nodes, parms) == FirstHandler(ps)
    ensures AfterConsult(nodes, known, parms) ==
      if ps == [] then nodes else Registered(nodes, parms, Copies(Known(known, parms[0]), |ps|))
  {
  }

  /**
   * A consultation in which some module promises teaches the kernel the
   * message's whole path: the trie stays a trie, the next descent along the
   * same parameters reaches the end, and the node there gains the module
   * known by the first parameter once per promising module.
   */
  lemma ConsultLearnsPath(nodes: map<seq<string>, seq<Module>>, known: map<string, Module>, parms: seq<string>)
    requires Trie(nodes) && parms != []
    requires Promising(ModulesAt(nodes, parms)).Some? && Promising(ModulesAt(nodes, parms)).value != []
    ensures var after := AfterConsult(nodes, known, parms);
      && Trie(after)
      && Depth(after, parms) == |parms|
      && parms in after
      && after[parms] == (if parms in nodes then nodes[parms] else []) +
                         Copies(Known(known, parms[0]), |Promising(ModulesAt(nodes, parms)).value|)
  {
    RegisteredPath(nodes, parms, Copies(Known(known, parms[0]), |Promising(ModulesAt(nodes, parms)).value|));
  }

  /**
   * A node reached by the descent whose modules are all local cache
   * modules, at least one, handles every message that has parameters.
   */
  lemma LocalCacheHandles(nodes: map<seq<string>, seq<Module>>, parms: seq<string>)
    requires parms != []
    requires var mods := ModulesAt(nodes, parms);
      mods != [] && forall i :: 0 <= i < |mods| ==> mods[i].LocalCache?
    ensures Consult(nodes, parms) == Handled
  {
    var mods := ModulesAt(nodes, parms);
    PromisingFilters(mods);
    var ps := Promising(mods).value;
    assert mods[0] in ps;
    assert ps[0] in mods;
    assert ps[0].LocalCache?;
  }

  /** `Kernel`: the root of the trie and the modules known by message name. */
  class Kernel {
    var nodes: map<seq<string>, seq<Module>>
    var knownMessages: map<string, Module>

    ghost predicate Valid()
      reads this
    {
      Trie(nodes)
    }

    /** A kernel whose trie is a root with no module. */
    constructor (knownMessages: map<string, Module>)
      ensures Valid() && nodes == map[[] := []] && this.knownMessages == knownMessages
    {
      nodes := map[[] := []];
      this.knownMessages := knownMessages;
    }

    /**
     * `addSyscall(parms...)`: walks the path from the root, making each
     * missing child, then appends the module known by the first parameter
     * to the last node. With no parameters it panics (`ok` is false)
     * without changing the trie.
     */
    method AddSyscall(parms: seq<string>) returns (ok: bool)
      requires Valid()
      modifies this`nodes
      ensures Valid()
      ensures ok <==> parms != []
      ensures ok ==> nodes == Registered(old(nodes), parms, [Known(knownMessages, parms[0])])
      ensures !ok ==> nodes == old(nodes)
    {
      var node: seq<string> := [];
      ghost var start := nodes;
      GrownNone(start, parms);
      for i := 0 to |parms|
        invariant node == parms[..i] && nodes == Grown(start, parms, i)
      {
        var child := node + [parms[i]];
        assert child == parms[..i + 1];
        GrownStep(start, parms, i);
        if child !in nodes {
          nodes := nodes[child := []];
        }
        node := child;
      }
      if parms == [] {
        return false;
      }
      assert node == parms;
      RegisteredGrown(start, parms, [Known(knownMessages, parms[0])]);
      nodes := nodes[node := nodes[node] + [Known(knownMessages, parms[0])]];
      RegisteredPath(start, parms, [Known(knownMessages, parms[0])]);
      return true;
    }

    /** The descent of `consultModules`: the node reached and its modules. */
    method Descend(parms: seq<string>) returns (node: seq<string>, mods: seq<Module>)
      requires Valid()
      ensures node == Reached(nodes, parms) && node in nodes && mods == ModulesAt(nodes, parms)
    {
      node := [];
      var i := 0;
      while i < |parms| && node + [parms[i]] in nodes
        invariant 0 <= i <= |parms| && node == parms[..i] && node in nodes
        invariant DepthFrom(nodes, parms, i) == Depth(nodes, parms)
      {
        assert node + [parms[i]] == parms[..i + 1];
        node := node + [parms[i]];
        i := i + 1;
      }
      assert i < |parms| ==> node + [parms[i]] == parms[..i + 1];
      mods := nodes[node];
    }

    /**
     * The first loop of `consultModules`: the test call of each module
     * of `mods`, and a registration of the path for each one that promises.
     * It panics when a test call does, or when a module promises and there
     * are no parameters.
     */
    method AskModules(mods: seq<Module>, parms: seq<string>) returns (panicked: bool, promising: seq<Module>)
      requires Valid()
      modifies this`nodes
      ensures panicked ==> Promising(mods).None? || (parms == [] && Promising(mods).value != [])
      ensures !panicked ==> Promising(mods) == Some(promising) && (parms == [] ==> promising == [])
      ensures Valid() && nodes == RegisteredTimes(old(nodes), knownMessages, parms, Registrations(mods))
    {
      promising := [];
      for j := 0 to |mods|
        invariant Promising(mods[..j]) == Some(promising)
        invariant Trie(nodes)
        invariant nodes == RegisteredTimes(old(nodes), knownMessages, parms, |promising|)
        invariant parms == [] ==> promising == []
      {
        assert mods[..j + 1][..j] == mods[..j];
        var promise := HandleMessage(mods[j], true);
        if promise.Panics? {
          PromisingPrefix(mods, j + 1);
          RegistrationsBeforePanic(mods, j);
          return true, promising;
        }
        if promise.Errs? || !promise.reply.accepted {
          continue;
        }
        ghost var prev := nodes;
        ghost var n := |promising|;
        promising := promising + [mods[j]];
        var ok := AddSyscall(parms);
        if !ok {
          PromisingPrefix(mods, j + 1);
          assert nodes == old(nodes);
          return true, promising;
        }
        ghost var m := Known(knownMessages, parms[0]);
        assert nodes == Registered(prev, parms, [m]);
        assert Copies(m, n + 1) == Copies(m, n) + [m];
        if n == 0 {
          assert Copies(m, n + 1) == [m];
          assert prev == old(nodes);
        } else {
          assert prev == Registered(old(nodes), parms, Copies(m, n));
          RegisteredAgain(old(nodes), parms, Copies(m, n), m);
        }
      }
      assert mods[..|mods|] == mods;
      assert Registrations(mods) == |promising|;
      return false, promising;
    }

    /** The second loop of `consultModules`: the real call of each promising module, until one handles the message. */
    static method FirstHandling(promising: seq<Module>) returns (r: Consulted)
      ensures r == FirstHandler(promising)
    {
      for j := 0 to |promising|
        invariant FirstHandler(promising) == FirstHandler(promising[j..])
      {
        assert promising[j..][1..] == promising[j + 1..];
        var response := HandleMessage(promising[j], false);
        if response.Panics? {
          return ConsultPanics;
        }
        if response.Replied? && response.reply.accepted {
          return Handled;
        }
      }
      return Failed(NoHandler);
    }

    /**
     * `consultModules`: descends the trie along the parameters while a
     * child exists, asks each module of the node reached whether it can
     * handle the message (registering the path again for each one that
     * promises), then returns "Handled" for the first promising module that
     * handles it, or the error "no module could handle the request".
     */
    method ConsultModules(parms: seq<string>) returns (r: Consulted)
      requires Valid()
      modifies this`nodes
      ensures r == Consult(old(nodes), parms)
      ensures Valid() && nodes == AfterConsult(old(nodes), knownMessages, parms)
    {
      var node, mods := Descend(parms);
      var panicked, promising := AskModules(mods, parms);
      if panicked {
        return ConsultPanics;
      }
      ConsultOfPromising(old(nodes), knownMessages, parms, promising);
      r := FirstHandling(promising);
    }
  }
}
