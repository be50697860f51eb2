/** The table of trap handlers in os-l3/kernel/src/os.c: registration with an in-place exchange sort, and
    the dispatch of a trap. */
module TrapTable {
  import opened Wrappers

  const INT_MIN: int := -0x8000_0000
  const INT_MAX: int := 0x7fff_ffff
  const EVENT_NULL: int := 0
  const MAX_NR: nat := 128

  /** `item_t`; a handler is named by a number. */
  datatype Item = Item(order: int, event: int, handler: nat)

  /** How `os_trap` ends: with the context to return to, or with one of its panics. */
  datatype Outcome = Next(ctx: nat) | MultipleContexts | NoContext

  predicate SortedBelow(tab: seq<Item>, n: nat)
    requires n <= |tab|
  {
    forall i, j | 0 <= i < n && i < j < |tab| :: tab[i].order <= tab[j].order
  }

  predicate Sorted(tab: seq<Item>) {
    SortedBelow(tab, |tab|)
  }

  lemma SwapSorted(tab: seq<Item>, i: nat, j: nat)
    requires i < j < |tab|
    ensures multiset(tab[i := tab[j]][j := tab[i]]) == multiset(tab)
    ensures SortedBelow(tab, i) ==> SortedBelow(tab[i := tab[j]][j := tab[i]], i)
  {}

  lemma SortedNext(tab: seq<Item>, i: nat)
    requires i < |tab| && SortedBelow(tab, i) && forall k | i < k < |tab| :: tab[i].order <= tab[k].order
    ensures SortedBelow(tab, i + 1)
  {}

  /** The handlers that a trap calls, in the order of the table. */
  function Called(tab: seq<Item>, event: int): seq<nat> {
    if tab == [] then []
    else
      var last := tab[|tab| - 1];
      Called(tab[..|tab| - 1], event) + if last.event == EVENT_NULL || last.event == event then [last.handler] else []
  }

  /** The entries for every event and those for this one, in the order of the table. */
  lemma {:induction false} CalledInOrder(tab: seq<Item>, more: seq<Item>, item: Item, event: int)
    ensures Called([], event) == []
    ensures Called([item], event) == if item.event == 0 || item.event == event then [item.handler] else []
    ensures Called(tab + more, event) == Called(tab, event) + Called(more, event)
  {
    assert [item][..0] == [];
    if more == [] {
      assert tab + more == tab;
    } else {
      var all, n := tab + more, |more| - 1;
      assert all[..|all| - 1] == tab + more[..n];
      CalledInOrder(tab, more[..n], item, event);
    }
  }

  /** The outcome of calling handlers one after the other, each answering with a context or NULL. */
  function Combined(calls: seq<nat>, answer: nat -> Option<nat>): Outcome {
    if calls == [] then NoContext
    else
      var before, last := Combined(calls[..|calls| - 1], answer), answer(calls[|calls| - 1]);
      if before == MultipleContexts || (before.Next? && last.Some?) then MultipleContexts
      else if last.Some? then Next(last.value)
      else before
  }

  /** No other call than the i-th answers with a context. */
  predicate OnlyAt(calls: seq<nat>, answer: nat -> Option<nat>, i: int) {
    forall j | 0 <= j < |calls| && j != i :: answer(calls[j]) == None
  }

  lemma OnlyAtPrefix(calls: seq<nat>, answer: nat -> Option<nat>, i: int)
    requires 0 <= i < |calls|
    ensures var n := |calls| - 1;
            && (i < n ==> (OnlyAt(calls, answer, i) <==> OnlyAt(calls[..n], answer, i) && answer(calls[n]) == None))
            && (i == n ==> (OnlyAt(calls, answer, i) <==> forall j | 0 <= j < n :: answer(calls[..n][j]) == None))
  {
    var n := |calls| - 1;
    var before := calls[..n];
    assert forall j | 0 <= j < n :: before[j] == calls[j];
    if i < n && OnlyAt(calls, answer, i) {
      assert forall j | 0 <= j < n && j != i :: answer(before[j]) == None;
    }
    if i < n && OnlyAt(before, answer, i) && answer(calls[n]) == None {
      forall j | 0 <= j < |calls| && j != i
        ensures answer(calls[j]) == None
      {
        assert j < n ==> answer(before[j]) == None;
      }
    }
  }

  /** The outcome tells the answers apart: it is a context exactly when one call answers with one. */
  lemma {:induction false} CombinedMeans(calls: seq<nat>, answer: nat -> Option<nat>)
    ensures Combined(calls, answer) == NoContext <==> forall i | 0 <= i < |calls| :: answer(calls[i]) == None
    ensures Combined(calls, answer).Next? <==>
              exists i | 0 <= i < |calls| :: answer(calls[i]).Some? && OnlyAt(calls, answer, i)
    ensures forall i | 0 <= i < |calls| && answer(calls[i]).Some? && OnlyAt(calls, answer, i) ::
              Combined(calls, answer) == Next(answer(calls[i]).value)
  {
    hide OnlyAt;
    if calls != [] {
      var n := |calls| - 1;
      var before := calls[..n];
      CombinedMeans(before, answer);
      assert forall j | 0 <= j < n :: before[j] == calls[j];
      forall i | 0 <= i < n
        ensures OnlyAt(calls, answer, i) <==> OnlyAt(before, answer, i) && answer(calls[n]) == None
      {
        OnlyAtPrefix(calls, answer, i);
      }
      OnlyAtPrefix(calls, answer, n);
    }
  }

  /** A context and NULL from all other calls. */
  lemma OneContext(calls: seq<nat>, answer: nat -> Option<nat>, i: nat)
    requires i < |calls| && answer(calls[i]).Some?
    requires forall j | 0 <= j < |calls| && j != i :: answer(calls[j]) == None
    ensures Combined(calls, answer) == Next(answer(calls[i]).value)
  {
    CombinedMeans(calls, answer);
    assert OnlyAt(calls, answer, i);
  }

  /** Two contexts. */
  lemma TwoContexts(calls: seq<nat>, answer: nat -> Option<nat>, i: nat, j: nat)
    requires i < j < |calls| && answer(calls[i]).Some? && answer(calls[j]).Some?
    ensures Combined(calls, answer) == MultipleContexts
  {
    CombinedMeans(calls, answer);
    forall k | 0 <= k < |calls|
      ensures !OnlyAt(calls, answer, k)
    {
      assert answer(calls[if k == i then j else i]).Some?;
    }
  }

  class Traps {
    const tab: array<Item>
    var itemNr: nat

    ghost predicate Valid()
      reads this, tab
    {
      itemNr <= tab.Length == MAX_NR && Sorted(tab[..itemNr])
    }

    constructor ()
      ensures Valid() && itemNr == 0 && fresh(tab)
    {
      tab := new Item[MAX_NR](i => Item(0, 0, 0));
      itemNr := 0;
    }

    /** The swap of the sort's inner loop, field by field in the source. */
    method Order(i: nat, j: nat, ghost n: nat)
      requires i < j < n <= tab.Length
      modifies tab
      ensures multiset(tab[..n]) == multiset(old(tab[..n])) && tab[n..] == old(tab[n..])
      ensures tab[i].order <= tab[j].order && tab[i].order <= old(tab[i].order)
      ensures SortedBelow(old(tab[..n]), i) ==> SortedBelow(tab[..n], i)
      ensures forall k | i < k < j :: tab[k] == old(tab[k])
    {
      if tab[i].order > tab[j].order {
        SwapSorted(tab[..n], i, j);
        tab[i], tab[j] := tab[j], tab[i];
        assert tab[..n] == old(tab[..n])[i := old(tab[j])][j := old(tab[i])];
      }
    }

    /** The inner loop: the least of the items from i on comes to place i. */
    method SelectLeast(i: nat)
      requires i < itemNr <= tab.Length && SortedBelow(tab[..itemNr], i)
      modifies tab
      ensures multiset(tab[..itemNr]) == multiset(old(tab[..itemNr])) && SortedBelow(tab[..itemNr], i + 1)
    {
      hide SortedBelow;
      var j := i + 1;
      while j < itemNr
        invariant i < j <= itemNr && multiset(tab[..itemNr]) == multiset(old(tab[..itemNr]))
        invariant SortedBelow(tab[..itemNr], i)
        invariant forall k | i < k < j :: tab[i].order <= tab[k].order
      {
        Order(i, j, itemNr);
        j := j + 1;
      }
      SortedNext(tab[..itemNr], i);
    }

    /** `os_on_irq`: the table stays sorted and holds the registrations, the new one among them. */
    method OnIrq(order: int, event: int, handler: nat)
      requires Valid() && itemNr < 128
      modifies this`itemNr, tab
      ensures Valid() && itemNr == old(itemNr) + 1 <= 128
      ensures forall i, j | 0 <= i < j < itemNr :: tab[i].order <= tab[j].order
      ensures multiset(tab[..itemNr]) == multiset(old(tab[..itemNr])) + multiset{Item(order, event, handler)}
    {
      tab[itemNr] := Item(order, event, handler);
      itemNr := itemNr + 1;
      assert tab[..itemNr] == old(tab[..itemNr]) + [Item(order, event, handler)];
      var i := 0;
      while i < itemNr
        invariant i <= itemNr == old(itemNr) + 1 && SortedBelow(tab[..itemNr], i)
        invariant multiset(tab[..itemNr]) == multiset(old(tab[..itemNr])) + multiset{Item(order, event, handler)}
      {
        SelectLeast(i);
        i := i + 1;
      }
      assert forall k | 0 <= k < itemNr :: tab[..itemNr][k] == tab[k];
    }

    /** `os_trap`. The handlers' answers are given; a second context stops it at once. */
    method Trap(event: int, answer: nat -> Option<nat>) returns (outcome: Outcome, ghost calls: seq<nat>)
      requires Valid()
      ensures outcome == Combined(Called(tab[..itemNr], event), answer)
      ensures outcome != MultipleContexts ==> calls == Called(tab[..itemNr], event)
    {
      var next: Option<nat>, i := None, 0;
      calls := [];
      while i < itemNr
        invariant i <= itemNr && calls == Called(tab[..i], event)
        invariant Combined(calls, answer) == if next.Some? then Next(next.value) else NoContext
      {
        CalledStep(tab[..itemNr], event, i);
        assert tab[..itemNr][..i] == tab[..i] && tab[..itemNr][..i + 1] == tab[..i + 1];
        if tab[i].event == EVENT_NULL || tab[i].event == event {
          CombinedStep(calls, tab[i].handler, answer);
          calls := calls + [tab[i].handler];
          var ret := answer(tab[i].handler);
          if ret.Some? && next.Some? {
            StaysMultiple(tab[..itemNr], event, answer, i + 1);
            return MultipleContexts, calls;
          }
          if ret.Some? {
            next := ret;
          }
        } else {
          assert calls + [] == calls;
        }
        i := i + 1;
      }
      outcome := if next == None then NoContext else Next(next.value);
    }
  }

  /** A second context stays one. */
  lemma {:induction false} StaysMultiple(tab: seq<Item>, event: int, answer: nat -> Option<nat>, n: nat)
    requires n <= |tab| && Combined(Called(tab[..n], event), answer) == MultipleContexts
    ensures Combined(Called(tab, event), answer) == MultipleContexts
    decreases |tab| - n
  {
    if n == |tab| {
      assert tab[..n] == tab;
    } else {
      CalledStep(tab, event, n);
      CombinedStep(Called(tab[..n], event), tab[n].handler, answer);
      assert Called(tab[..n], event) + [] == Called(tab[..n], event);
      StaysMultiple(tab, event, answer, n + 1);
    }
  }

  lemma CalledStep(tab: seq<Item>, event: int, n: nat)
    requires n < |tab|
    ensures Called(tab[..n + 1], event)
            == Called(tab[..n], event) + if tab[n].event == EVENT_NULL || tab[n].event == event
                 then [tab[n].handler] else []
  {
    assert tab[..n + 1][..n] == tab[..n];
  }

  lemma CombinedStep(calls: seq<nat>, h: nat, answer: nat -> Option<nat>)
    ensures Combined(calls + [h], answer)
            == var before := Combined(calls, answer);
               if before == MultipleContexts || (before.Next? && answer(h).Some?) then MultipleContexts
               else if answer(h).Some? then Next(answer(h).value)
               else before
  {
    assert (calls + [h])[..|calls|] == calls;
  }

  /** What the kernel registers: the context save with the least order, the scheduler with the greatest,
      both for every event, and everything else in between. */
  ghost predicate KernelTable(tab: seq<Item>, save: nat, schedule: nat) {
    && Sorted(tab)
    && Item(INT_MIN, EVENT_NULL, save) in tab && Item(INT_MAX, EVENT_NULL, schedule) in tab
    && (forall i | 0 <= i < |tab| :: tab[i] == Item(INT_MIN, EVENT_NULL, save) || tab[i].order > INT_MIN)
    && (forall i | 0 <= i < |tab| :: tab[i] == Item(INT_MAX, EVENT_NULL, schedule) || tab[i].order < INT_MAX)
  }

  /** However the kernel's modules come to register, the sorted table is the kernel's. */
  lemma RegisteredInAnyOrder(registrations: seq<Item>, tab: seq<Item>, save: nat, schedule: nat)
    requires Sorted(tab) && multiset(tab) == multiset(registrations)
    requires Item(-0x8000_0000, 0, save) in registrations && Item(0x7fff_ffff, 0, schedule) in registrations
    requires forall r | r in registrations :: r == Item(-0x8000_0000, 0, save) || r.order > -0x8000_0000
    requires forall r | r in registrations :: r == Item(0x7fff_ffff, 0, schedule) || r.order < 0x7fff_ffff
    ensures KernelTable(tab, save, schedule)
  {
    forall r
      ensures r in tab <==> r in registrations
    {
      assert r in tab <==> r in multiset(tab);
      assert r in registrations <==> r in multiset(registrations);
    }
    forall i | 0 <= i < |tab|
      ensures tab[i] == Item(INT_MIN, EVENT_NULL, save) || tab[i].order > INT_MIN
      ensures tab[i] == Item(INT_MAX, EVENT_NULL, schedule) || tab[i].order < INT_MAX
    {
      assert tab[i] in tab;
    }
  }

  lemma {:induction false} FirstCalled(tab: seq<Item>, event: int)
    requires tab != [] && tab[0].event == EVENT_NULL
    ensures Called(tab, event) != [] && Called(tab, event)[0] == tab[0].handler
  {
    if |tab| > 1 {
      FirstCalled(tab[..|tab| - 1], event);
    } else {
      assert Called(tab[..0], event) == [];
    }
  }

  /** Every trap saves the context first and schedules last. */
  lemma SaveFirstScheduleLast(tab: seq<Item>, event: int, save: nat, schedule: nat)
    requires KernelTable(tab, save, schedule)
    ensures var calls := Called(tab, event);
            |calls| >= 1 && calls[0] == save && calls[|calls| - 1] == schedule
    ensures tab[|tab| - 1] == Item(INT_MAX, EVENT_NULL, schedule)
  {
    var i :| 0 <= i < |tab| && tab[i] == Item(INT_MIN, EVENT_NULL, save);
    var j :| 0 <= j < |tab| && tab[j] == Item(INT_MAX, EVENT_NULL, schedule);
    assert i == 0 || tab[0].order <= tab[i].order;
    var last := |tab| - 1;
    assert j == last || tab[j].order <= tab[last].order;
    assert tab[0] == Item(INT_MIN, EVENT_NULL, save);
    assert tab[last] == Item(INT_MAX, EVENT_NULL, schedule);
    FirstCalled(tab, event);
  }

  /** With a scheduler that finds a context and all other handlers answering NULL, a trap ends with the
      scheduler's context: neither panic happens. */
  lemma SchedulerDecides(tab: seq<Item>, event: int, save: nat, schedule: nat, answer: nat -> Option<nat>)
    requires KernelTable(tab, save, schedule) && answer(schedule).Some?
    requires forall i | 0 <= i < |tab| && tab[i].handler != schedule :: answer(tab[i].handler) == None
    requires forall i | 0 <= i < |tab| && tab[i].handler == schedule :: tab[i].order == INT_MAX
    requires forall i, j | 0 <= i < j < |tab| :: tab[i].order == INT_MAX ==> tab[j].order != INT_MAX
    ensures Combined(Called(tab, event), answer) == Next(answer(schedule).value)
  {
    var n := |tab| - 1;
    SaveFirstScheduleLast(tab, event, save, schedule);
    var before := Called(tab[..n], event);
    SilentCalls(tab[..n], event, answer);
    CombinedMeans(before, answer);
    assert Called(tab, event)[..|before|] == before;
  }

  lemma {:induction false} SilentCalls(tab: seq<Item>, event: int, answer: nat -> Option<nat>)
    requires forall i | 0 <= i < |tab| :: answer(tab[i].handler) == None
    ensures forall i | 0 <= i < |Called(tab, event)| :: answer(Called(tab, event)[i]) == None
  {
    if tab != [] {
      SilentCalls(tab[..|tab| - 1], event, answer);
    }
  }
}
