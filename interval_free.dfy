/**
 * Free-slot search over an interval tree (interval/treeFree.go): `genSlots`
 * walks the tree and yields the free slots around the busy intervals, and
 * `FindFree` takes the first slot, in walk order, that fits an interval of
 * the requested duration, either at its start (first fit) or at its end
 * (last fit).
 *
 * Times are integers and intervals are half-open, `[start, end)`. The
 * channel of `genSlots` is a lazy list: it becomes a `Stream`, the slots
 * sent before the walk ends or crashes. A crash is the failed `conflict`
 * assertion or the dereference of a child whose interval is nil.
 */
module IntervalFree {
  import opened Wrappers

  /** The interval `[start, end)`. */
  datatype Interval = Interval(start: int, end: int)

  /** Two intervals conflict when they share a time. */
  predicate Conflicts(a: Interval, b: Interval)
  {
    a.start < b.end && b.start < a.end
  }

  /** `slot` wraps `iv` when `iv` lies inside it. */
  predicate Wraps(slot: Interval, iv: Interval)
  {
    slot.start <= iv.start && iv.end <= slot.end
  }

  /**
   * Conflict is symmetric; intervals that only touch do not conflict, an
   * interval that is not empty conflicts with an identical one, and two
   * intervals that are not empty conflict exactly when their intersection
   * is not empty.
   */
  lemma ConflictHalfOpen(a: Interval, b: Interval)
    ensures Conflicts(a, b) <==> Conflicts(b, a)
    ensures a.end == b.start ==> !Conflicts(a, b)
    ensures a == b && a.start < a.end ==> Conflicts(a, b)
    ensures a.start < a.end && b.start < b.end ==> (Conflicts(a, b) <==> Max(a.start, b.start) < Min(a.end, b.end))
  {
  }

  /** A time shared by both intervals makes them conflict. */
  lemma SharedTimeConflicts(a: Interval, b: Interval, t: int)
    requires a.start <= t < a.end && b.start <= t < b.end
    ensures Conflicts(a, b)
  {
  }

  /** `minTime` and `maxTime`. */
  function Min(a: int, b: int): int
  {
    if a < b then a else b
  }

  function Max(a: int, b: int): int
  {
    if a < b then b else a
  }

  /** A node of the tree: its busy interval (nil allowed) and its children. */
  datatype Tree = Nil | Node(interval: Option<Interval>, left: Tree, right: Tree)

  /** `Tree.Conflict(first, slot)`, the check `genSlots` asserts on every slot of a child. */
  type ConflictCheck = (Tree, bool, Interval) -> bool

  /** The slots sent on the channel, and whether the walk crashed after them. */
  datatype Stream = Stream(slots: seq<Interval>, crashes: bool)

  const Done := Stream([], false)
  const Crash := Stream([], true)

  /** `b` runs after `a` unless `a` crashed. */
  function Then(a: Stream, b: Stream): (r: Stream)
    ensures r.crashes <==> a.crashes || b.crashes
  {
    if a.crashes then a else Stream(a.slots + b.slots, b.crashes)
  }

  /** A child's slots passed on, up to the first one the node's check rejects, where the walk crashes. */
  function Checked(check: ConflictCheck, t: Tree, first: bool, s: Stream): (r: Stream)
    decreases |s.slots|
  {
    if s.slots == [] then s
    else if check(t, first, s.slots[0]) then Crash
    else
      var rest := Checked(check, t, first, Stream(s.slots[1..], s.crashes));
      Stream([s.slots[0]] + rest.slots, rest.crashes)
  }

  /** The range `[minStart, maxEnd)` clipped to a child's interval, where the walk of that child runs. */
  function Clip(span: Interval, minStart: int, maxEnd: int): Interval
  {
    Interval(Max(minStart, span.start), Min(span.end, maxEnd))
  }

  /** The gap slot between the two children, when there are two. */
  function Gap(t: Tree, minStart: int, maxEnd: int): Stream
    requires t.Node?
  {
    if t.left.Nil? || t.right.Nil? then Done
    else if t.left.interval.None? || t.right.interval.None? then Crash
    else Stream([Interval(Max(minStart, t.left.interval.value.end), Min(t.right.interval.value.start, maxEnd))], false)
  }

  /** The five steps of the walk: pre, left, gap, right, post, or the reverse when `first` is unset. */
  function Walk(first: bool, pre: Stream, left: Stream, gap: Stream, right: Stream, post: Stream): Stream
  {
    if first then Then(pre, Then(left, Then(gap, Then(right, post))))
    else Then(post, Then(right, Then(gap, Then(left, pre))))
  }

  /** `t.genSlots(first, minStart, maxEnd)`. */
  function GenSlots(check: ConflictCheck, t: Tree, first: bool, minStart: int, maxEnd: int): Stream
    decreases t
  {
    if maxEnd - minStart <= 0 then Done
    else if t.Nil? || t.interval.None? then Stream([Interval(minStart, maxEnd)], false)
    else
      var busy := t.interval.value;
      var left :=
        if t.left.Nil? then Done
        else if t.left.interval.None? then Crash
        else
          var c := Clip(t.left.interval.value, minStart, maxEnd);
          Checked(check, t, first, GenSlots(check, t.left, first, c.start, c.end));
      var right :=
        if t.right.Nil? then Done
        else if t.right.interval.None? then Crash
        else
          var c := Clip(t.right.interval.value, minStart, maxEnd);
          Checked(check, t, first, GenSlots(check, t.right, first, c.start, c.end));
      Walk(first, Stream([Interval(minStart, Min(busy.start, maxEnd))], false), left, Gap(t, minStart, maxEnd), right,
           Stream([Interval(Max(minStart, busy.end), maxEnd)], false))
  }

  /** An empty time range yields no slot; a nil tree or a node without an interval yields the whole range. */
  lemma GenSlotsBase(check: ConflictCheck, t: Tree, first: bool, minStart: int, maxEnd: int)
    ensures maxEnd <= minStart ==> GenSlots(check, t, first, minStart, maxEnd) == Stream([], false)
    ensures minStart < maxEnd && (t.Nil? || t.interval.None?) ==>
      GenSlots(check, t, first, minStart, maxEnd) == Stream([Interval(minStart, maxEnd)], false)
  {
  }

  /** At a node, the walk with `first` set opens with the pre slot, and the one with `first` unset with the post slot. */
  lemma PreAndPost(check: ConflictCheck, t: Tree, minStart: int, maxEnd: int)
    requires minStart < maxEnd && t.Node? && t.interval.Some?
    ensures GenSlots(check, t, true, minStart, maxEnd).slots[0] == Interval(minStart, Min(t.interval.value.start, maxEnd))
    ensures GenSlots(check, t, false, minStart, maxEnd).slots[0] == Interval(Max(minStart, t.interval.value.end), maxEnd)
  {
  }

  function Reverse(s: seq<Interval>): (r: seq<Interval>)
    ensures |r| == |s|
    decreases |s|
  {
    if s == [] then [] else Reverse(s[1..]) + [s[0]]
  }

  lemma {:induction false} ReverseAppend(a: seq<Interval>, b: seq<Interval>)
    ensures Reverse(a + b) == Reverse(b) + Reverse(a)
    decreases |a|
  {
    if a == [] {
      assert a + b == b;
    } else {
      assert (a + b)[1..] == a[1..] + b;
      ReverseAppend(a[1..], b);
    }
  }

  /** Checking passes a stream on unchanged when it does not crash. */
  lemma {:induction false} CheckedNoCrash(check: ConflictCheck, t: Tree, first: bool, s: Stream)
    requires !Checked(check, t, first, s).crashes
    ensures Checked(check, t, first, s) == s
    decreases |s.slots|
  {
    if s.slots != [] {
      CheckedNoCrash(check, t, first, Stream(s.slots[1..], s.crashes));
    }
  }

  /** Reversing a sequence of at most one slot leaves it as it is. */
  lemma ReverseShort(s: seq<Interval>)
    requires |s| <= 1
    ensures Reverse(s) == s
  {
    if |s| == 1 {
      assert Reverse(s) == Reverse(s[1..]) + [s[0]];
    }
  }

  /** A walk that does not crash sends the slots of its five steps in its order. */
  lemma WalkSlots(first: bool, pre: Stream, left: Stream, gap: Stream, right: Stream, post: Stream)
    requires !Walk(first, pre, left, gap, right, post).crashes
    ensures !pre.crashes && !left.crashes && !gap.crashes && !right.crashes && !post.crashes
    ensures first ==> Walk(first, pre, left, gap, right, post).slots == pre.slots + (left.slots + (gap.slots + (right.slots + post.slots)))
    ensures !first ==> Walk(first, pre, left, gap, right, post).slots == post.slots + (right.slots + (gap.slots + (left.slots + pre.slots)))
  {
  }

  /** Reversing five joined sequences reverses each and their order. */
  lemma ReverseJoined(p: seq<Interval>, l: seq<Interval>, g: seq<Interval>, r: seq<Interval>, q: seq<Interval>)
    ensures Reverse(p + (l + (g + (r + q)))) == (((Reverse(q) + Reverse(r)) + Reverse(g)) + Reverse(l)) + Reverse(p)
  {
    ReverseAppend(r, q);
    ReverseAppend(g, r + q);
    ReverseAppend(l, g + (r + q));
    ReverseAppend(p, l + (g + (r + q)));
  }

  /** Regrouping five joined sequences to the right. */
  lemma Regroup(q: seq<Interval>, r: seq<Interval>, g: seq<Interval>, l: seq<Interval>, p: seq<Interval>)
    ensures (((q + r) + g) + l) + p == q + (r + (g + (l + p)))
  {
    assert (((q + r) + g) + l) + p == ((q + r) + g) + (l + p);
    assert ((q + r) + g) + (l + p) == (q + r) + (g + (l + p));
  }

  /** Reversing the slots of the five steps reverses their order and each child's slots. */
  lemma ReverseFive(p: seq<Interval>, l: seq<Interval>, g: seq<Interval>, r: seq<Interval>, q: seq<Interval>)
    requires |p| <= 1 && |g| <= 1 && |q| <= 1
    ensures Reverse(p + (l + (g + (r + q)))) == q + (Reverse(r) + (g + (Reverse(l) + p)))
  {
    ReverseShort(p);
    ReverseShort(g);
    ReverseShort(q);
    ReverseJoined(p, l, g, r, q);
    Regroup(q, Reverse(r), g, Reverse(l), p);
  }

  /**
   * The walk with `first` unset yields exactly the slots of the walk with
   * `first` set, in reverse order (when neither crashes).
   */
  lemma {:induction false} GenSlotsReversed(check: ConflictCheck, t: Tree, minStart: int, maxEnd: int)
    requires !GenSlots(check, t, true, minStart, maxEnd).crashes && !GenSlots(check, t, false, minStart, maxEnd).crashes
    ensures GenSlots(check, t, false, minStart, maxEnd).slots == Reverse(GenSlots(check, t, true, minStart, maxEnd).slots)
    decreases t
  {
    if maxEnd - minStart > 0 && t.Node? && t.interval.Some? {
      var busy := t.interval.value;
      var pre := Stream([Interval(minStart, Min(busy.start, maxEnd))], false);
      var post := Stream([Interval(Max(minStart, busy.end), maxEnd)], false);
      var gap := Gap(t, minStart, maxEnd);
      var left, left', right, right' := Done, Done, Done, Done;
      if t.left.Node? {
        left, left' := Crash, Crash;
      }
      if t.right.Node? {
        right, right' := Crash, Crash;
      }
      if t.left.Node? && t.left.interval.Some? {
        var c := Clip(t.left.interval.value, minStart, maxEnd);
        left := Checked(check, t, true, GenSlots(check, t.left, true, c.start, c.end));
        left' := Checked(check, t, false, GenSlots(check, t.left, false, c.start, c.end));
      }
      if t.right.Node? && t.right.interval.Some? {
        var c := Clip(t.right.interval.value, minStart, maxEnd);
        right := Checked(check, t, true, GenSlots(check, t.right, true, c.start, c.end));
        right' := Checked(check, t, false, GenSlots(check, t.right, false, c.start, c.end));
      }
      assert GenSlots(check, t, true, minStart, maxEnd) == Walk(true, pre, left, gap, right, post);
      assert GenSlots(check, t, false, minStart, maxEnd) == Walk(false, pre, left', gap, right', post);
      WalkSlots(true, pre, left, gap, right, post);
      WalkSlots(false, pre, left', gap, right', post);
      if t.left.Node? && t.left.interval.Some? {
        var c := Clip(t.left.interval.value, minStart, maxEnd);
        CheckedNoCrash(check, t, true, GenSlots(check, t.left, true, c.start, c.end));
        CheckedNoCrash(check, t, false, GenSlots(check, t.left, false, c.start, c.end));
        GenSlotsReversed(check, t.left, c.start, c.end);
      }
      if t.right.Node? && t.right.interval.Some? {
        var c := Clip(t.right.interval.value, minStart, maxEnd);
        CheckedNoCrash(check, t, true, GenSlots(check, t.right, true, c.start, c.end));
        CheckedNoCrash(check, t, false, GenSlots(check, t.right, false, c.start, c.end));
        GenSlotsReversed(check, t.right, c.start, c.end);
      }
      ReverseFive(pre.slots, left.slots, gap.slots, right.slots, post.slots);
    }
  }

  /** Every slot starts no earlier than `lo` and ends no later than `hi`. */
  ghost predicate Within(s: Stream, lo: int, hi: int)
  {
    forall i :: 0 <= i < |s.slots| ==> lo <= s.slots[i].start && s.slots[i].end <= hi
  }

  lemma {:induction false} CheckedWithin(check: ConflictCheck, t: Tree, first: bool, s: Stream, lo: int, hi: int)
    requires Within(s, lo, hi)
    ensures Within(Checked(check, t, first, s), lo, hi)
    decreases |s.slots|
  {
    if s.slots != [] && !check(t, first, s.slots[0]) {
      var tail := Stream(s.slots[1..], s.crashes);
      assert Within(tail, lo, hi) by {
        assert forall i :: 0 <= i < |tail.slots| ==> tail.slots[i] == s.slots[i + 1];
      }
      CheckedWithin(check, t, first, tail, lo, hi);
    }
  }

  lemma ThenWithin(a: Stream, b: Stream, lo: int, hi: int)
    requires Within(a, lo, hi) && Within(b, lo, hi)
    ensures Within(Then(a, b), lo, hi)
  {
    if !a.crashes {
      var s := a.slots + b.slots;
      forall i | 0 <= i < |s| ensures lo <= s[i].start && s[i].end <= hi {
        if i >= |a.slots| {
          assert s[i] == b.slots[i - |a.slots|];
        }
      }
    }
  }

  /** A range inside another widens what a stream lies within. */
  lemma WithinWider(s: Stream, lo: int, hi: int, lo': int, hi': int)
    requires Within(s, lo, hi) && lo' <= lo && hi <= hi'
    ensures Within(s, lo', hi')
  {
  }

  /** A walk of five steps within a range lies within it. */
  lemma WalkWithin(first: bool, pre: Stream, left: Stream, gap: Stream, right: Stream, post: Stream, lo: int, hi: int)
    requires Within(pre, lo, hi) && Within(left, lo, hi) && Within(gap, lo, hi) && Within(right, lo, hi) && Within(post, lo, hi)
    ensures Within(Walk(first, pre, left, gap, right, post), lo, hi)
  {
    if first {
      ThenWithin(right, post, lo, hi);
      ThenWithin(gap, Then(right, post), lo, hi);
      ThenWithin(left, Then(gap, Then(right, post)), lo, hi);
      ThenWithin(pre, Then(left, Then(gap, Then(right, post))), lo, hi);
    } else {
      ThenWithin(left, pre, lo, hi);
      ThenWithin(gap, Then(left, pre), lo, hi);
      ThenWithin(right, Then(gap, Then(left, pre)), lo, hi);
      ThenWithin(post, Then(right, Then(gap, Then(left, pre))), lo, hi);
    }
  }

  /** Every slot lies inside `[minStart, maxEnd)`: a child's walk is clipped to the child's interval within the range. */
  lemma {:induction false} GenSlotsWithin(check: ConflictCheck, t: Tree, first: bool, minStart: int, maxEnd: int)
    ensures Within(GenSlots(check, t, first, minStart, maxEnd), minStart, maxEnd)
    decreases t
  {
    if maxEnd - minStart > 0 && t.Node? && t.interval.Some? {
      var busy := t.interval.value;
      var pre := Stream([Interval(minStart, Min(busy.start, maxEnd))], false);
      var post := Stream([Interval(Max(minStart, busy.end), maxEnd)], false);
      var gap := Gap(t, minStart, maxEnd);
      var left, right := if t.left.Nil? then Done else Crash, if t.right.Nil? then Done else Crash;
      if t.left.Node? && t.left.interval.Some? {
        var c := Clip(t.left.interval.value, minStart, maxEnd);
        var s := GenSlots(check, t.left, first, c.start, c.end);
        GenSlotsWithin(check, t.left, first, c.start, c.end);
        CheckedWithin(check, t, first, s, c.start, c.end);
        left := Checked(check, t, first, s);
        WithinWider(left, c.start, c.end, minStart, maxEnd);
      }
      if t.right.Node? && t.right.interval.Some? {
        var c := Clip(t.right.interval.value, minStart, maxEnd);
        var s := GenSlots(check, t.right, first, c.start, c.end);
        GenSlotsWithin(check, t.right, first, c.start, c.end);
        CheckedWithin(check, t, first, s, c.start, c.end);
        right := Checked(check, t, first, s);
        WithinWider(right, c.start, c.end, minStart, maxEnd);
      }
      assert GenSlots(check, t, first, minStart, maxEnd) == Walk(first, pre, left, gap, right, post);
      WalkWithin(first, pre, left, gap, right, post, minStart, maxEnd);
    }
  }

  /** The check as a conflict with the node's own busy interval. */
  function OwnConflict(t: Tree, first: bool, slot: Interval): bool
  {
    t.Node? && t.interval.Some? && Conflicts(slot, t.interval.value)
  }

  /**
   * Every node has an interval, the left child's ends no later than its
   * own starts, and the right child's starts no earlier than its own ends.
   */
  ghost predicate Ordered(t: Tree)
  {
    t.Node? ==>
      && t.interval.Some?
      && (t.left.Node? ==> t.left.interval.Some? && t.left.interval.value.end <= t.interval.value.start && Ordered(t.left))
      && (t.right.Node? ==> t.right.interval.Some? && t.interval.value.end <= t.right.interval.value.start && Ordered(t.right))
  }

  lemma {:induction false} CheckedPasses(t: Tree, first: bool, s: Stream)
    requires !s.crashes
    requires forall i :: 0 <= i < |s.slots| ==> !OwnConflict(t, first, s.slots[i])
    ensures Checked(OwnConflict, t, first, s) == s
    decreases |s.slots|
  {
    if s.slots != [] {
      var tail := Stream(s.slots[1..], s.crashes);
      assert forall i :: 0 <= i < |tail.slots| ==> tail.slots[i] == s.slots[i + 1];
      CheckedPasses(t, first, tail);
    }
  }

  /**
   * In an ordered tree, with the check taken as a conflict with the node's
   * own interval, no slot of a child ever conflicts with its parent, so
   * the walk never crashes.
   */
  lemma {:induction false} OrderedNeverCrashes(t: Tree, first: bool, minStart: int, maxEnd: int)
    requires Ordered(t)
    ensures !GenSlots(OwnConflict, t, first, minStart, maxEnd).crashes
    decreases t
  {
    if maxEnd - minStart > 0 && t.Node? {
      var busy := t.interval.value;
      if t.left.Node? {
        var span := t.left.interval.value;
        var lo, hi := Max(minStart, span.start), Min(span.end, maxEnd);
        var s := GenSlots(OwnConflict, t.left, first, lo, hi);
        OrderedNeverCrashes(t.left, first, lo, hi);
        GenSlotsWithin(OwnConflict, t.left, first, lo, hi);
        CheckedPasses(t, first, s);
      }
      if t.right.Node? {
        var span := t.right.interval.value;
        var lo, hi := Max(minStart, span.start), Min(span.end, maxEnd);
        var s := GenSlots(OwnConflict, t.right, first, lo, hi);
        OrderedNeverCrashes(t.right, first, lo, hi);
        GenSlotsWithin(OwnConflict, t.right, first, lo, hi);
        CheckedPasses(t, first, s);
      }
    }
  }

  /** The trial interval of `FindFree` in a slot: at its start for first fit, at its end for last fit. */
  function Trial(first: bool, slot: Interval, duration: int): Interval
  {
    if first then Interval(slot.start, slot.start + duration) else Interval(slot.end - duration, slot.end)
  }

  /** What `FindFree` ends with: an interval, nil, or the crash of the walk. */
  datatype Found = Free(interval: Interval) | NoFree | Crashes

  /** Slot k is the first of `s`, in walk order, whose trial interval it wraps. */
  ghost predicate FirstFit(s: seq<Interval>, first: bool, duration: int, k: int)
  {
    && 0 <= k < |s| && Wraps(s[k], Trial(first, s[k], duration))
    && forall j :: 0 <= j < k ==> !Wraps(s[j], Trial(first, s[j], duration))
  }

  /** No slot of `s` wraps its trial interval. */
  ghost predicate NoFit(s: seq<Interval>, first: bool, duration: int)
  {
    forall j :: 0 <= j < |s| ==> !Wraps(s[j], Trial(first, s[j], duration))
  }

  /** `iv` is the trial interval of the first slot of `s` that fits one. */
  ghost predicate FitsFirst(s: seq<Interval>, first: bool, duration: int, iv: Interval)
  {
    exists k :: FirstFit(s, first, duration, k) && iv == Trial(first, s[k], duration)
  }

  /** The search loop of `FindFree` over the slots of the walk. */
  method FindFree(check: ConflictCheck, t: Tree, first: bool, minStart: int, maxEnd: int, duration: int) returns (r: Found)
    ensures var w := GenSlots(check, t, first, minStart, maxEnd);
      r.Free? ==> FitsFirst(w.slots, first, duration, r.interval)
    ensures var w := GenSlots(check, t, first, minStart, maxEnd); r.NoFree? <==> NoFit(w.slots, first, duration) && !w.crashes
    ensures var w := GenSlots(check, t, first, minStart, maxEnd); r.Crashes? <==> NoFit(w.slots, first, duration) && w.crashes
  {
    var stream := GenSlots(check, t, first, minStart, maxEnd);
    var s := stream.slots;
    for i := 0 to |s|
      invariant forall j :: 0 <= j < i ==> !Wraps(s[j], Trial(first, s[j], duration))
    {
      var slot := s[i];
      var free := if first then Interval(slot.start, slot.start + duration) else Interval(slot.end - duration, slot.end);
      if slot.start <= free.start && free.end <= slot.end {
        assert FirstFit(s, first, duration, i) && free == Trial(first, s[i], duration);
        assert !NoFit(s, first, duration);
        r := Free(free);
        assert FitsFirst(s, first, duration, r.interval);
        return;
      }
    }
    return if stream.crashes then Crashes else NoFree;
  }

  /**
   * An interval `FindFree` returns has the requested duration and lies inside
   * `[minStart, maxEnd)` and inside the slot it was fitted in.
   */
  lemma FoundFits(check: ConflictCheck, t: Tree, first: bool, minStart: int, maxEnd: int, duration: int, k: nat)
    requires k < |GenSlots(check, t, first, minStart, maxEnd).slots|
    requires var slot := GenSlots(check, t, first, minStart, maxEnd).slots[k]; Wraps(slot, Trial(first, slot, duration))
    ensures var iv := Trial(first, GenSlots(check, t, first, minStart, maxEnd).slots[k], duration);
      iv.end - iv.start == duration && minStart <= iv.start && iv.end <= maxEnd
  {
    GenSlotsWithin(check, t, first, minStart, maxEnd);
  }

  // ----- the test intervals, in minutes after 2024-01-01T00:00:00 -----

  /** 10:00-11:00 conflicts with 10:30-11:30 and with 09:00-10:30, both ways, and 09:00-10:30 with itself; it does not conflict with 11:00-12:00. */
  lemma TestConflicts()
    ensures Conflicts(Interval(600, 660), Interval(630, 690)) && Conflicts(Interval(630, 690), Interval(600, 660))
    ensures Conflicts(Interval(600, 660), Interval(540, 630)) && Conflicts(Interval(540, 630), Interval(600, 660))
    ensures Conflicts(Interval(540, 630), Interval(540, 630))
    ensures !Conflicts(Interval(600, 660), Interval(660, 720)) && !Conflicts(Interval(660, 720), Interval(600, 660))
  {
  }
}
