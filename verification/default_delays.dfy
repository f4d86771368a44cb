/**
 * `_insert_default_delays`: with a default delay configured, a delay of that
 * length is put between every two neighbouring actions of which neither is a
 * delay, in each of a macro's three action lists.
 */
module DefaultDelays {
  import opened Wrappers
  import opened Model

  /** An action of the new list, marked by where it comes from. */
  datatype Entry = Kept(action: Action) | Added(action: Action)

  /** Whether a delay goes between `a` and the action `b` that follows it. */
  predicate NeedsDelay(a: Action, b: Action) {
    !a.Delay? && !b.Delay?
  }

  /** The new list with its entries marked: the originals in order, with the inserted delays. */
  function Tagged(a: seq<Action>, d: int): seq<Entry>
    decreases |a|
  {
    if |a| == 0 then []
    else if |a| == 1 then [Kept(a[0])]
    else [Kept(a[0])] + (if NeedsDelay(a[0], a[1]) then [Added(Delay(d))] else []) + Tagged(a[1..], d)
  }

  function Untag(t: seq<Entry>): (r: seq<Action>)
    ensures |r| == |t| && forall k :: 0 <= k < |t| ==> r[k] == t[k].action
  {
    seq(|t|, k requires 0 <= k < |t| => t[k].action)
  }

  /** The entries that come from the original list. */
  function Originals(t: seq<Entry>): seq<Action> {
    if t == [] then [] else (if t[0].Kept? then [t[0].action] else []) + Originals(t[1..])
  }

  /** The list `_insert_default_delays` makes of `a` with default delay `d`. */
  function WithDelays(a: seq<Action>, d: int): seq<Action> {
    Untag(Tagged(a, d))
  }

  lemma UntagAppend(s: seq<Entry>, t: seq<Entry>)
    ensures Untag(s + t) == Untag(s) + Untag(t)
  {
  }

  lemma {:induction false} OriginalsAppend(s: seq<Entry>, t: seq<Entry>)
    ensures Originals(s + t) == Originals(s) + Originals(t)
    decreases |s|
  {
    if s != [] {
      assert (s + t)[1..] == s[1..] + t;
      OriginalsAppend(s[1..], t);
    } else {
      assert s + t == t;
    }
  }

  /** The first action, the delay after it if one is due, and the rest. */
  lemma TaggedStep(a: seq<Action>, d: int)
    requires |a| >= 1
    ensures Tagged(a, d) ==
      [Kept(a[0])] + (if |a| > 1 && NeedsDelay(a[0], a[1]) then [Added(Delay(d))] else []) + Tagged(a[1..], d)
  {
  }

  // Properties of the inserted delays

  /** Dropping the inserted delays gives back the original list. */
  lemma {:induction false} OriginalsOfTagged(a: seq<Action>, d: int)
    ensures Originals(Tagged(a, d)) == a
    decreases |a|
  {
    if |a| >= 1 {
      var gap: seq<Entry> := if |a| > 1 && NeedsDelay(a[0], a[1]) then [Added(Delay(d))] else [];
      TaggedStep(a, d);
      OriginalsAppend([Kept(a[0])] + gap, Tagged(a[1..], d));
      OriginalsAppend([Kept(a[0])], gap);
      OriginalsOfTagged(a[1..], d);
      assert Originals([Kept(a[0])]) == [a[0]];
      assert Originals(gap) == [];
      assert [a[0]] + a[1..] == a;
    }
  }

  /** The first entry is the first original action and the last the last. */
  lemma {:induction false} TaggedEnds(a: seq<Action>, d: int)
    requires a != []
    ensures Tagged(a, d) != []
    ensures Tagged(a, d)[0] == Kept(a[0])
    ensures Tagged(a, d)[|Tagged(a, d)| - 1] == Kept(a[|a| - 1])
    decreases |a|
  {
    if |a| > 1 {
      TaggedEnds(a[1..], d);
    }
  }

  /**
   * Every inserted entry is `Delay(d)` with an original non-delay action on
   * either side: nothing is added at either end or next to a delay.
   */
  lemma {:induction false} AddedOnlyBetweenNonDelays(a: seq<Action>, d: int)
    ensures var t := Tagged(a, d);
      forall k :: 0 <= k < |t| && t[k].Added? ==>
        0 < k < |t| - 1 && t[k].action == Delay(d) &&
        t[k - 1].Kept? && !t[k - 1].action.Delay? && t[k + 1].Kept? && !t[k + 1].action.Delay?
    decreases |a|
  {
    if |a| > 1 {
      var t := Tagged(a, d);
      var rest := Tagged(a[1..], d);
      var gap: seq<Entry> := if NeedsDelay(a[0], a[1]) then [Added(Delay(d))] else [];
      AddedOnlyBetweenNonDelays(a[1..], d);
      TaggedEnds(a[1..], d);
      assert t == [Kept(a[0])] + gap + rest;
      forall k | 0 <= k < |t| && t[k].Added?
        ensures 0 < k < |t| - 1 && t[k].action == Delay(d)
        ensures t[k - 1].Kept? && !t[k - 1].action.Delay? && t[k + 1].Kept? && !t[k + 1].action.Delay?
      {
        if k < 1 + |gap| {
          assert k == 1 && gap != [];
          assert t[k + 1] == rest[0];
        } else {
          assert t[k] == rest[k - 1 - |gap|];
          assert t[k - 1] == rest[k - 2 - |gap|];
          assert t[k + 1] == rest[k - |gap|];
        }
      }
    }
  }

  /** No two neighbouring actions of the new list are both other than a delay. */
  lemma {:induction false} NoNeighbouringNonDelays(a: seq<Action>, d: int)
    ensures var r := WithDelays(a, d);
      forall k :: 0 <= k < |r| - 1 ==> r[k].Delay? || r[k + 1].Delay?
    decreases |a|
  {
    if |a| > 1 {
      var t := Tagged(a, d);
      var rest := Tagged(a[1..], d);
      var gap: seq<Entry> := if NeedsDelay(a[0], a[1]) then [Added(Delay(d))] else [];
      NoNeighbouringNonDelays(a[1..], d);
      TaggedEnds(a[1..], d);
      assert t == [Kept(a[0])] + gap + rest;
      forall k | 0 <= k < |t| - 1 ensures t[k].action.Delay? || t[k + 1].action.Delay? {
        if k == 0 && gap == [] {
          assert t[1] == rest[0];
        } else if k > |gap| {
          assert t[k] == rest[k - 1 - |gap|] && t[k + 1] == rest[k - |gap|];
          assert WithDelays(a[1..], d)[k - 1 - |gap|] == rest[k - 1 - |gap|].action;
        }
      }
    }
  }

  /** A list already holding a delay between any two non-delays is left as it is. */
  lemma {:induction false} AlreadySpacedUnchanged(a: seq<Action>, d: int)
    requires forall k :: 0 <= k < |a| - 1 ==> !NeedsDelay(a[k], a[k + 1])
    ensures WithDelays(a, d) == a
    decreases |a|
  {
    if |a| > 1 {
      assert !NeedsDelay(a[0], a[1]);
      AlreadySpacedUnchanged(a[1..], d);
      TaggedStep(a, d);
      UntagAppend([Kept(a[0])], Tagged(a[1..], d));
      assert [a[0]] + a[1..] == a;
    } else if |a| == 1 {
      assert WithDelays(a, d) == [a[0]];
    }
  }

  /**
   * Different lists can give the same result: an explicit delay of the
   * default length is indistinguishable from an inserted one.
   */
  lemma ExplicitAndInsertedDelaysCoincide(p: Action, q: Action, d: int)
    requires !p.Delay? && !q.Delay?
    ensures WithDelays([p, q], d) == WithDelays([p, Delay(d), q], d) == [p, Delay(d), q]
  {
    assert Tagged([p, q], d) == [Kept(p), Added(Delay(d)), Kept(q)] by {
      assert [p, q][1..] == [q];
    }
    assert Tagged([Delay(d), q], d) == [Kept(Delay(d)), Kept(q)] by {
      assert [Delay(d), q][1..] == [q];
    }
    assert Tagged([p, Delay(d), q], d) == [Kept(p), Kept(Delay(d)), Kept(q)] by {
      assert [p, Delay(d), q][1..] == [Delay(d), q];
    }
  }

  /** The loop over one action list (`for i, action in enumerate(actions)`). */
  method InsertIntoList(actions: seq<Action>, d: int) returns (newActions: seq<Action>)
    ensures newActions == WithDelays(actions, d)
  {
    newActions := [];
    var i := 0;
    while i < |actions|
      invariant 0 <= i <= |actions|
      invariant newActions + WithDelays(actions[i..], d) == WithDelays(actions, d)
    {
      var action := actions[i];
      Advance(actions, d, i, newActions);
      newActions := newActions + [action];
      if !action.Delay? && i < |actions| - 1 {
        var nextAction := actions[i + 1];
        if !nextAction.Delay? {
          newActions := newActions + [Delay(d)];
        }
      }
      i := i + 1;
    }
  }

  /** One step of the loop: the action at `i`, the delay after it if due, then the rest. */
  lemma Advance(actions: seq<Action>, d: int, i: nat, done: seq<Action>)
    requires i < |actions|
    ensures done + WithDelays(actions[i..], d) ==
      (if i < |actions| - 1 && NeedsDelay(actions[i], actions[i + 1])
       then done + [actions[i]] + [Delay(d)] else done + [actions[i]]) +
      WithDelays(actions[i + 1..], d)
  {
    var a := actions[i..];
    TaggedStep(a, d);
    assert a[1..] == actions[i + 1..];
    var gap: seq<Entry> := if |a| > 1 && NeedsDelay(a[0], a[1]) then [Added(Delay(d))] else [];
    UntagAppend([Kept(a[0])] + gap, Tagged(a[1..], d));
    UntagAppend([Kept(a[0])], gap);
    var rest := WithDelays(actions[i + 1..], d);
    assert WithDelays(a, d) == [actions[i]] + Untag(gap) + rest;
  }

  /** `not default_delay`: no default delay, or one of zero. */
  predicate NoDefaultDelay(m: Macro) {
    m.defaultDelay.None? || m.defaultDelay.value == 0
  }

  /** What `_insert_default_delays` leaves of a macro. */
  function MacroWithDelays(m: Macro): (r: Macro)
    ensures r.name == m.name
  {
    if NoDefaultDelay(m) then m
    else
      var d := m.defaultDelay.value;
      m.(startActions := WithDelays(m.startActions, d),
         actions := WithDelays(m.actions, d),
         finishActions := WithDelays(m.finishActions, d))
  }

  /**
   * `_insert_default_delays` on a whole macro: each of the three action
   * lists gets the delays; nothing else changes, and a macro without a
   * default delay is returned unchanged.
   */
  method InsertDefaultDelays(m: Macro) returns (r: Macro)
    ensures NoDefaultDelay(m) ==> r == m
    ensures !NoDefaultDelay(m) ==>
      r == m.(startActions := WithDelays(m.startActions, m.defaultDelay.value),
              actions := WithDelays(m.actions, m.defaultDelay.value),
              finishActions := WithDelays(m.finishActions, m.defaultDelay.value))
  {
    if NoDefaultDelay(m) {
      return m;
    }
    var d := m.defaultDelay.value;
    r := m;
    var sections := [StartActions, Actions, FinishActions];
    var k := 0;
    while k < |sections|
      invariant 0 <= k <= |sections|
      invariant forall j :: 0 <= j < |sections| ==>
        r.ActionsOf(sections[j]) == (if j < k then WithDelays(m.ActionsOf(sections[j]), d) else m.ActionsOf(sections[j]))
      invariant r == m.(startActions := r.startActions, actions := r.actions, finishActions := r.finishActions)
    {
      var list := r.ActionsOf(sections[k]);
      if list != [] {
        var newList := InsertIntoList(list, d);
        r := r.WithActions(sections[k], newList);
      } else {
        assert WithDelays(list, d) == [];
      }
      k := k + 1;
    }
    assert r.startActions == r.ActionsOf(sections[0]);
    assert r.actions == r.ActionsOf(sections[1]);
    assert r.finishActions == r.ActionsOf(sections[2]);
  }
}
