// frontend/src/stores/uploads.ts: the upload queue. Each action and each callback
// of an upload is one step; starting an upload calls nothing back at once.
module Uploads {
  import opened Common

  datatype Status = Queued | Active | Done | Failed

  datatype Item = Item(id: nat, size: nat, uploaded: nat, status: Status, error: Option<string>, retries: nat)

  const MAX_CONCURRENT := 3

  /** items in the order of the list, the ids that have an upload under way, and
      the number of the next item. */
  datatype State = State(items: seq<Item>, handles: set<nat>, nextId: nat)

  // ---------------------------------------------------------------------
  // What a step does
  // ---------------------------------------------------------------------

  /** The sum of weight over items. */
  function Sum(weight: Item -> int, items: seq<Item>): int {
    if |items| == 0 then 0 else Sum(weight, items[..|items| - 1]) + weight(items[|items| - 1])
  }

  function IsQueued(it: Item): int { if it.status == Queued then 1 else 0 }

  function IsActive(it: Item): int { if it.status == Active then 1 else 0 }

  function Started(it: Item): Item { it.(status := Active, error := None) }

  /** The item at position j is among the first `slots` queued ones. */
  predicate Chosen(items: seq<Item>, slots: int, j: nat)
    requires j < |items|
  {
    items[j].status == Queued && Sum(IsQueued, items[..j]) < slots
  }

  function Pumped(items: seq<Item>, slots: int): (r: seq<Item>)
    ensures |r| == |items|
    ensures forall j :: 0 <= j < |items| ==> r[j] == if Chosen(items, slots, j) then Started(items[j]) else items[j]
  {
    seq(|items|, j requires 0 <= j < |items| => if Chosen(items, slots, j) then Started(items[j]) else items[j])
  }

  /** The ids that a pump starts, in the order in which it starts them. */
  function StartedIds(items: seq<Item>, slots: int): seq<nat> {
    if |items| == 0 then []
    else
      var n := |items| - 1;
      StartedIds(items[..n], slots) + if Chosen(items, slots, n) then [items[n].id] else []
  }

  function Slots(items: seq<Item>): int { MAX_CONCURRENT - Sum(IsActive, items) }

  function Elements(ids: seq<nat>): set<nat> { set i | 0 <= i < |ids| :: ids[i] }

  function Pump(s: State): State {
    s.(items := Pumped(s.items, Slots(s.items)), handles := s.handles + Elements(StartedIds(s.items, Slots(s.items))))
  }

  function Update(items: seq<Item>, id: nat, patch: Item -> Item): (r: seq<Item>)
    ensures |r| == |items|
    ensures forall i :: 0 <= i < |items| ==> r[i] == if items[i].id == id then patch(items[i]) else items[i]
  {
    seq(|items|, i requires 0 <= i < |items| => if items[i].id == id then patch(items[i]) else items[i])
  }

  function Filter(keep: Item -> bool, items: seq<Item>): seq<Item> {
    if |items| == 0 then []
    else
      var n := |items| - 1;
      Filter(keep, items[..n]) + if keep(items[n]) then [items[n]] else []
  }

  datatype Event =
    | Enqueue(sizes: seq<nat>)
    | Progress(id: nat, uploaded: nat)
    | Success(id: nat)
    | Error(id: nat, text: string)
    | Rejected(id: nat)
    | Remove(id: nat)
    | ClearFinished
    | Retry(id: nat)

  function Fresh(sizes: seq<nat>, nextId: nat): (r: seq<Item>)
    ensures |r| == |sizes|
    ensures forall i :: 0 <= i < |sizes| ==> r[i] == Item(nextId + i, sizes[i], 0, Queued, None, 0)
  {
    seq(|sizes|, i requires 0 <= i < |sizes| => Item(nextId + i, sizes[i], 0, Queued, None, 0))
  }

  function Succeeded(it: Item): Item { it.(status := Done, uploaded := it.size) }

  function FailedWith(text: string): Item -> Item { (it: Item) => it.(status := Failed, error := Some(text)) }

  function Uploaded(n: nat): Item -> Item { (it: Item) => it.(uploaded := n) }

  const REJECTED_TEXT := "authorization rejected by server"

  function Back(retries: nat): Item -> Item {
    (it: Item) => it.(status := Queued, uploaded := 0, retries := retries)
  }

  /** Twice a rejected upload goes back into the queue; the third time it fails. */
  function Bounced(it: Item): Item {
    if it.retries + 1 > 2 then it.(status := Failed, error := Some(REJECTED_TEXT))
    else it.(status := Queued, uploaded := 0, retries := it.retries + 1)
  }

  function Requeued(it: Item): Item { it.(status := Queued, uploaded := 0, error := None) }

  predicate Unfinished(it: Item) { it.status == Queued || it.status == Active }

  /** The state in which the step pumps. */
  function Before(s: State, e: Event): State {
    match e
    case Enqueue(sizes) => s.(items := s.items + Fresh(sizes, s.nextId), nextId := s.nextId + |sizes|)
    case Progress(id, n) => s.(items := Update(s.items, id, Uploaded(n)))
    case Success(id) => s.(items := Update(s.items, id, Succeeded), handles := s.handles - {id})
    case Error(id, text) => s.(items := Update(s.items, id, FailedWith(text)), handles := s.handles - {id})
    case Rejected(id) => s.(items := Update(s.items, id, Bounced), handles := s.handles - {id})
    case Remove(id) => s.(items := Filter((it: Item) => it.id != id, s.items), handles := s.handles - {id})
    case ClearFinished => s.(items := Filter(Unfinished, s.items))
    case Retry(id) => s.(items := Update(s.items, id, Requeued), handles := s.handles - {id})
  }

  predicate Pumps(e: Event) { !e.Progress? && !e.ClearFinished? }

  function Next(s: State, e: Event): State { if Pumps(e) then Pump(Before(s, e)) else Before(s, e) }

  function StartedBy(s: State, e: Event): seq<nat> {
    if Pumps(e) then StartedIds(Before(s, e).items, Slots(Before(s, e).items)) else []
  }

  // ---------------------------------------------------------------------
  // The queue
  // ---------------------------------------------------------------------

  ghost predicate Distinct(items: seq<Item>) {
    forall i, j :: 0 <= i < j < |items| ==> items[i].id != items[j].id
  }

  class Queue {
    var items: seq<Item>
    var handles: set<nat>
    var nextId: nat

    ghost function View(): State
      reads this
    {
      State(items, handles, nextId)
    }

    constructor ()
      ensures Settled(View()) && View() == State([], {}, 1)
    {
      EmptySettled();
      items, handles, nextId := [], {}, 1;
    }

    method UpdateItem(id: nat, patch: Item -> Item)
      modifies this`items
      ensures items == Update(old(items), id, patch)
    {
      items := Update(items, id, patch);
    }

    method StartItem(item: Item)
      modifies this`items, this`handles
      ensures items == Update(old(items), item.id, Started) && handles == old(handles) + {item.id}
    {
      UpdateItem(item.id, Started);
      handles := handles + {item.id};
    }

    /** Goes over the items as they were when it was called. */
    method DoPump() returns (started: seq<nat>)
      requires Distinct(items)
      modifies this`items, this`handles
      ensures View() == Pump(old(View()))
      ensures started == StartedIds(old(items), Slots(old(items)))
    {
      var snapshot := items;
      var slots := Slots(snapshot);
      var i := 0;
      started := [];
      while i < |snapshot| && slots > 0
        invariant i <= |snapshot| && PumpedTo(items, snapshot, i)
        invariant slots == Slots(snapshot) - Sum(IsQueued, snapshot[..i])
        invariant started == StartedIds(snapshot[..i], Slots(snapshot))
        invariant handles == old(handles) + Elements(started)
      {
        PrefixStep(snapshot, i, Slots(snapshot));
        PumpOne(items, snapshot, i);
        if snapshot[i].status == Queued {
          ElementsSnoc(started, snapshot[i].id);
          StartItem(snapshot[i]);
          started := started + [snapshot[i].id];
          slots := slots - 1;
        }
        i := i + 1;
      }
      RestUnchosen(snapshot, i, Slots(snapshot));
      assert items == Pumped(snapshot, Slots(snapshot)) by { PumpDone(items, snapshot, i); }
    }

    method Enqueue(sizes: seq<nat>) returns (started: seq<nat>)
      requires Settled(View())
      modifies this
      ensures Settled(View()) && View() == Next(old(View()), Event.Enqueue(sizes))
      ensures started == StartedBy(old(View()), Event.Enqueue(sizes))
    {
      BeforeConsistent(View(), Event.Enqueue(sizes));
      items, nextId := items + Fresh(sizes, nextId), nextId + |sizes|;
      assert View() == Before(old(View()), Event.Enqueue(sizes));
      PumpSettles(View());
      started := DoPump();
    }

    method OnProgress(id: nat, n: nat)
      requires Settled(View())
      modifies this
      ensures Settled(View()) && View() == Next(old(View()), Progress(id, n))
    {
      StepSettled(View(), Progress(id, n));
      UpdateItem(id, Uploaded(n));
    }

    method OnSuccess(id: nat) returns (started: seq<nat>)
      requires Settled(View())
      modifies this
      ensures Settled(View()) && View() == Next(old(View()), Success(id))
      ensures started == StartedBy(old(View()), Success(id))
    {
      BeforeConsistent(View(), Success(id));
      handles := handles - {id};
      UpdateItem(id, Succeeded);
      assert View() == Before(old(View()), Success(id));
      PumpSettles(View());
      started := DoPump();
    }

    method OnError(id: nat, text: string) returns (started: seq<nat>)
      requires Settled(View())
      modifies this
      ensures Settled(View()) && View() == Next(old(View()), Error(id, text))
      ensures started == StartedBy(old(View()), Error(id, text))
    {
      BeforeConsistent(View(), Error(id, text));
      handles := handles - {id};
      UpdateItem(id, FailedWith(text));
      assert View() == Before(old(View()), Error(id, text));
      PumpSettles(View());
      started := DoPump();
    }

    /** The item's retries are looked up in the list; a removed item has none. */
    method OnCapabilityRejected(id: nat) returns (started: seq<nat>)
      requires Settled(View())
      modifies this
      ensures Settled(View()) && View() == Next(old(View()), Rejected(id))
      ensures started == StartedBy(old(View()), Rejected(id))
    {
      BeforeConsistent(View(), Rejected(id));
      handles := handles - {id};
      var retries := RetriesOf(items, id) + 1;
      BouncedByLookup(items, id);
      if retries > 2 {
        UpdateItem(id, FailedWith(REJECTED_TEXT));
      } else {
        UpdateItem(id, Back(retries));
      }
      assert View() == Before(old(View()), Rejected(id));
      PumpSettles(View());
      started := DoPump();
    }

    method Remove(id: nat) returns (aborted: bool, started: seq<nat>)
      requires Settled(View())
      modifies this
      ensures Settled(View()) && View() == Next(old(View()), Event.Remove(id))
      ensures started == StartedBy(old(View()), Event.Remove(id))
      ensures aborted == (id in old(handles))
    {
      BeforeConsistent(View(), Event.Remove(id));
      aborted := id in handles;
      handles := handles - {id};
      items := Filter((it: Item) => it.id != id, items);
      assert View() == Before(old(View()), Event.Remove(id));
      PumpSettles(View());
      started := DoPump();
    }

    method ClearFinished()
      requires Settled(View())
      modifies this
      ensures Settled(View()) && View() == Next(old(View()), Event.ClearFinished)
    {
      StepSettled(View(), Event.ClearFinished);
      items := Filter(Unfinished, items);
    }

    method Retry(id: nat) returns (started: seq<nat>)
      requires Settled(View())
      modifies this
      ensures Settled(View()) && View() == Next(old(View()), Event.Retry(id))
      ensures started == StartedBy(old(View()), Event.Retry(id))
    {
      BeforeConsistent(View(), Event.Retry(id));
      handles := handles - {id};
      UpdateItem(id, Requeued);
      assert View() == Before(old(View()), Event.Retry(id));
      PumpSettles(View());
      started := DoPump();
    }
  }

  /** items is the snapshot, pumped up to position i. */
  ghost predicate PumpedTo(items: seq<Item>, snapshot: seq<Item>, i: nat) {
    |items| == |snapshot| &&
    forall j :: 0 <= j < |items| ==> items[j] == if j < i then Pumped(snapshot, Slots(snapshot))[j] else snapshot[j]
  }

  lemma PumpOne(items: seq<Item>, snapshot: seq<Item>, i: nat)
    requires Distinct(snapshot) && i < |snapshot| && PumpedTo(items, snapshot, i)
    ensures var chosen := Chosen(snapshot, Slots(snapshot), i);
            var items' := if chosen then Update(items, snapshot[i].id, Started) else items;
            PumpedTo(items', snapshot, i + 1)
  {
    forall j | 0 <= j < |items|
      ensures items[j].id == snapshot[j].id
    {}
  }

  lemma PumpDone(items: seq<Item>, snapshot: seq<Item>, i: nat)
    requires PumpedTo(items, snapshot, i)
    requires forall j :: i <= j < |snapshot| ==> !Chosen(snapshot, Slots(snapshot), j)
    ensures items == Pumped(snapshot, Slots(snapshot))
  {}

  function RetriesOf(items: seq<Item>, id: nat): nat {
    if |items| == 0 then 0 else if items[0].id == id then items[0].retries else RetriesOf(items[1..], id)
  }

  lemma {:induction false} RetriesAt(items: seq<Item>, id: nat)
    requires Distinct(items)
    ensures forall i :: 0 <= i < |items| && items[i].id == id ==> items[i].retries == RetriesOf(items, id)
  {
    if |items| > 0 {
      RetriesAt(items[1..], id);
      forall i | 0 <= i < |items| && items[i].id == id
        ensures items[i].retries == RetriesOf(items, id)
      {
        if i > 0 { assert items[1..][i - 1] == items[i]; }
      }
    }
  }

  lemma BouncedByLookup(items: seq<Item>, id: nat)
    requires Distinct(items)
    ensures var retries := RetriesOf(items, id) + 1;
            Update(items, id, Bounced) ==
            Update(items, id, if retries > 2 then FailedWith(REJECTED_TEXT) else Back(retries))
  {
    RetriesAt(items, id);
  }

  lemma ElementsSnoc(ids: seq<nat>, id: nat)
    ensures Elements(ids + [id]) == Elements(ids) + {id}
  {
    var all := ids + [id];
    assert all[|ids|] == id;
    assert forall i :: 0 <= i < |ids| ==> all[i] == ids[i];
  }

  /** One more item: the sum grows by its weight, the started ids by its own. */
  lemma PrefixStep(items: seq<Item>, i: nat, slots: int)
    requires i < |items|
    ensures Sum(IsQueued, items[..i + 1]) == Sum(IsQueued, items[..i]) + IsQueued(items[i])
    ensures StartedIds(items[..i + 1], slots) ==
            StartedIds(items[..i], slots) + if Chosen(items, slots, i) then [items[i].id] else []
  {
    assert items[..i + 1][..i] == items[..i];
  }

  lemma {:induction false} SumMore(weight: Item -> int, items: seq<Item>, i: nat)
    requires i <= |items| && forall it :: weight(it) >= 0
    ensures 0 <= Sum(weight, items[..i]) <= Sum(weight, items)
    decreases |items|
  {
    assert items[..|items|] == items;
    if |items| > 0 {
      var n := |items| - 1;
      if i <= n {
        assert items[..n][..i] == items[..i];
        SumMore(weight, items[..n], i);
      } else {
        SumMore(weight, items[..n], n);
        assert items[..n][..n] == items[..n];
      }
    }
  }

  lemma {:induction false} RestUnchosen(items: seq<Item>, i: nat, slots: int)
    requires i <= |items| && (i < |items| ==> Sum(IsQueued, items[..i]) >= slots)
    ensures forall j :: i <= j < |items| ==> !Chosen(items, slots, j)
    ensures StartedIds(items[..i], slots) == StartedIds(items, slots)
    decreases |items| - i
  {
    if i == |items| {
      assert items[..i] == items;
    } else {
      PrefixStep(items, i, slots);
      RestUnchosen(items, i + 1, slots);
    }
  }

  lemma {:induction false} FilterMembers(keep: Item -> bool, items: seq<Item>)
    ensures forall it :: it in Filter(keep, items) <==> it in items && keep(it)
    ensures |Filter(keep, items)| <= |items|
  {
    if |items| > 0 {
      var n := |items| - 1;
      FilterMembers(keep, items[..n]);
      assert items == items[..n] + [items[n]];
    }
  }

  lemma {:induction false} FilterDistinct(keep: Item -> bool, items: seq<Item>)
    requires Distinct(items)
    ensures Distinct(Filter(keep, items))
  {
    if |items| > 0 {
      var n := |items| - 1;
      FilterDistinct(keep, items[..n]);
      FilterMembers(keep, items[..n]);
      var f := Filter(keep, items[..n]);
      forall j | 0 <= j < |f|
        ensures f[j].id != items[n].id
      {
        assert f[j] in items[..n];
      }
    }
  }

  // ---------------------------------------------------------------------
  // What every run keeps
  // ---------------------------------------------------------------------

  function ActiveIds(items: seq<Item>): set<nat> {
    set i | 0 <= i < |items| && items[i].status == Active :: items[i].id
  }

  /** Ids are unique and used up, uploads under way belong to the active items, at
      most three are, and bounced at most twice. */
  ghost predicate Consistent(s: State) {
    Distinct(s.items) && (forall i :: 0 <= i < |s.items| ==> s.items[i].id < s.nextId && s.items[i].retries <= 2) &&
    s.handles == ActiveIds(s.items) && Sum(IsActive, s.items) <= MAX_CONCURRENT
  }

  /** Also: nothing waits while a slot is free. */
  ghost predicate Settled(s: State) {
    Consistent(s) && (Sum(IsQueued, s.items) > 0 ==> Sum(IsActive, s.items) == MAX_CONCURRENT)
  }

  lemma {:induction false} SumPointwise(w: Item -> int, items: seq<Item>, items': seq<Item>)
    requires |items| == |items'| && forall i :: 0 <= i < |items| ==> w(items'[i]) <= w(items[i])
    ensures Sum(w, items') <= Sum(w, items)
    ensures (exists i :: 0 <= i < |items| && w(items'[i]) < w(items[i])) ==> Sum(w, items') < Sum(w, items)
  {
    if |items| > 0 {
      var n := |items| - 1;
      SumPointwise(w, items[..n], items'[..n]);
      if i :| 0 <= i < |items| && w(items'[i]) < w(items[i]) {
        if i < n { assert w(items'[..n][i]) < w(items[..n][i]); }
      }
    }
  }

  lemma {:induction false} SumFilter(w: Item -> int, keep: Item -> bool, items: seq<Item>)
    requires forall it :: w(it) >= 0
    ensures 0 <= Sum(w, Filter(keep, items)) <= Sum(w, items)
    ensures (forall it :: !keep(it) ==> w(it) == 0) ==> Sum(w, Filter(keep, items)) == Sum(w, items)
  {
    if |items| > 0 {
      var n := |items| - 1;
      SumFilter(w, keep, items[..n]);
      var f := Filter(keep, items[..n]);
      if keep(items[n]) {
        var g := f + [items[n]];
        assert g[..|f|] == f && Filter(keep, items) == g;
        assert Sum(w, g) == Sum(w, f) + w(items[n]);
      } else {
        assert f + [] == f;
      }
    }
  }

  lemma {:induction false} SumAppend(w: Item -> int, items: seq<Item>, more: seq<Item>)
    requires forall i :: 0 <= i < |more| ==> w(more[i]) == 0
    ensures Sum(w, items + more) == Sum(w, items)
    decreases |more|
  {
    if |more| == 0 {
      assert items + more == items;
    } else {
      var n := |more| - 1;
      assert (items + more)[..|items| + n] == items + more[..n];
      SumAppend(w, items, more[..n]);
    }
  }

  /** A pump starts as many as it can: the first of the queued items, up to the
      free slots. */
  lemma {:induction false} PumpCounts(items: seq<Item>, slots: int, i: nat)
    requires i <= |items| && slots >= 0
    ensures var p := Pumped(items, slots)[..i]; var q := Sum(IsQueued, items[..i]);
            var k := if q < slots then q else slots;
            Sum(IsActive, p) == Sum(IsActive, items[..i]) + k && Sum(IsQueued, p) == q - k
  {
    if i > 0 {
      PumpCounts(items, slots, i - 1);
      var p := Pumped(items, slots);
      assert p[..i][..i - 1] == p[..i - 1] && items[..i][..i - 1] == items[..i - 1];
      SumMore(IsQueued, items, i - 1);
    }
  }

  function ChosenIds(items: seq<Item>, slots: int, i: nat): set<nat>
    requires i <= |items|
  {
    set j | 0 <= j < i && Chosen(items, slots, j) :: items[j].id
  }

  lemma {:induction false} StartedMembers(items: seq<Item>, slots: int, i: nat)
    requires i <= |items|
    ensures Elements(StartedIds(items[..i], slots)) == ChosenIds(items, slots, i)
    decreases i
  {
    if i == 0 {
      assert StartedIds(items[..0], slots) == [];
      assert ChosenIds(items, slots, 0) == {};
    } else {
      StartedMembers(items, slots, i - 1);
      PrefixStep(items, i - 1, slots);
      var was, id := StartedIds(items[..i - 1], slots), items[i - 1].id;
      ElementsSnoc(was, id);
      if Chosen(items, slots, i - 1) {
        assert ChosenIds(items, slots, i) == ChosenIds(items, slots, i - 1) + {id};
      } else {
        assert was + [] == was;
        assert ChosenIds(items, slots, i) == ChosenIds(items, slots, i - 1);
      }
    }
  }

  lemma PumpActive(items: seq<Item>, slots: int)
    ensures ActiveIds(Pumped(items, slots)) == ActiveIds(items) + Elements(StartedIds(items, slots))
  {
    var p := Pumped(items, slots);
    assert items[..|items|] == items;
    StartedMembers(items, slots, |items|);
    forall id
      ensures id in ActiveIds(p) <==> id in ActiveIds(items) + ChosenIds(items, slots, |items|)
    {
      if i :| 0 <= i < |p| && p[i].status == Active && p[i].id == id {
        assert items[i].id == id && (items[i].status == Active || Chosen(items, slots, i));
      }
      if i :| 0 <= i < |items| && items[i].id == id && (items[i].status == Active || Chosen(items, slots, i)) {
        assert p[i].id == id && p[i].status == Active;
      }
    }
  }

  lemma PumpSettles(s: State)
    requires Consistent(s)
    ensures Settled(Pump(s))
  {
    var items, slots := s.items, Slots(s.items);
    var p := Pumped(items, slots);
    PumpCounts(items, slots, |items|);
    assert items[..|items|] == items && p[..|items|] == p;
    SumMore(IsQueued, items, |items|);
    PumpActive(items, slots);
    assert forall i :: 0 <= i < |p| ==> p[i].id == items[i].id && p[i].retries == items[i].retries;
  }

  /** Before it pumps, a step may leave slots free, but nothing else. */
  lemma BeforeConsistent(s: State, e: Event)
    requires Consistent(s)
    ensures Consistent(Before(s, e))
  {
    match e
    case Enqueue(sizes) =>
      SumAppend(IsActive, s.items, Fresh(sizes, s.nextId));
      ActiveAppend(s.items, Fresh(sizes, s.nextId));
    case Progress(id, n) => PatchConsistent(s, id, Uploaded(n), false);
    case Success(id) => PatchConsistent(s, id, Succeeded, true);
    case Error(id, text) => PatchConsistent(s, id, FailedWith(text), true);
    case Rejected(id) => PatchConsistent(s, id, Bounced, true);
    case Remove(id) => FilterConsistent(s, (it: Item) => it.id != id, {id});
    case ClearFinished => FilterConsistent(s, Unfinished, {});
    case Retry(id) => PatchConsistent(s, id, Requeued, true);
  }

  lemma ActiveAppend(items: seq<Item>, more: seq<Item>)
    requires forall i :: 0 <= i < |more| ==> more[i].status != Active
    ensures ActiveIds(items + more) == ActiveIds(items)
  {
    forall id
      ensures id in ActiveIds(items + more) <==> id in ActiveIds(items)
    {
      if i :| 0 <= i < |items| && items[i].status == Active && items[i].id == id {
        assert (items + more)[i].id == id;
      }
    }
  }

  /** A patch keeps the id and at most two bounces, and leaves the item active only
      if it was and its upload goes on. */
  ghost predicate GoodPatch(patch: Item -> Item, ends: bool) {
    forall it: Item :: it.retries <= 2 ==>
      patch(it).id == it.id && patch(it).retries <= 2 &&
      (if ends then patch(it).status != Active else patch(it).status == it.status)
  }

  lemma PatchConsistent(s: State, id: nat, patch: Item -> Item, ends: bool)
    requires Consistent(s) && GoodPatch(patch, ends)
    ensures Consistent(State(Update(s.items, id, patch), if ends then s.handles - {id} else s.handles, s.nextId))
  {
    var items := Update(s.items, id, patch);
    assert forall i :: 0 <= i < |items| ==> items[i].id == s.items[i].id && items[i].retries <= 2;
    SumPointwise(IsActive, s.items, items);
    PatchActive(s.items, id, patch, ends);
  }

  lemma PatchActive(items: seq<Item>, id: nat, patch: Item -> Item, ends: bool)
    requires GoodPatch(patch, ends) && forall i :: 0 <= i < |items| ==> items[i].retries <= 2
    ensures ActiveIds(Update(items, id, patch)) == if ends then ActiveIds(items) - {id} else ActiveIds(items)
  {
    var items' := Update(items, id, patch);
    forall x
      ensures x in ActiveIds(items') <==> x in ActiveIds(items) && !(ends && x == id)
    {
      if i :| 0 <= i < |items| && items[i].status == Active && items[i].id == x {
        assert items'[i].id == x;
      }
      if i :| 0 <= i < |items'| && items'[i].status == Active && items'[i].id == x {
        assert items[i].id == x;
      }
    }
  }

  lemma FilterConsistent(s: State, keep: Item -> bool, gone: set<nat>)
    requires Consistent(s)
    requires forall it: Item :: it.status == Active ==> (keep(it) <==> it.id !in gone)
    ensures Consistent(State(Filter(keep, s.items), s.handles - gone, s.nextId))
  {
    var items := Filter(keep, s.items);
    FilterDistinct(keep, s.items);
    FilterMembers(keep, s.items);
    SumFilter(IsActive, keep, s.items);
    forall i | 0 <= i < |items|
      ensures items[i].id < s.nextId && items[i].retries <= 2
    {
      assert items[i] in s.items;
    }
    forall x
      ensures x in ActiveIds(items) <==> x in ActiveIds(s.items) && x !in gone
    {
      if i :| 0 <= i < |s.items| && s.items[i].status == Active && s.items[i].id == x && x !in gone {
        assert s.items[i] in items;
      }
      if i :| 0 <= i < |items| && items[i].status == Active && items[i].id == x {
        assert items[i] in s.items;
      }
    }
  }

  lemma StepSettled(s: State, e: Event)
    requires Settled(s)
    ensures Settled(Next(s, e))
  {
    BeforeConsistent(s, e);
    if Pumps(e) {
      PumpSettles(Before(s, e));
    } else if e.Progress? {
      SumPointwise(IsQueued, s.items, Before(s, e).items);
      SumPointwise(IsActive, Before(s, e).items, s.items);
    } else {
      SumFilter(IsQueued, Unfinished, s.items);
      SumFilter(IsActive, Unfinished, s.items);
    }
  }

  function Last(s: State, es: seq<Event>): State
    decreases |es|
  {
    if |es| == 0 then s else Last(Next(s, es[0]), es[1..])
  }

  /** After any events in any order: at most three uploads at once, those under way
      are those of the active items, and nothing waits while a slot is free. */
  lemma {:induction false} RunSettled(s: State, es: seq<Event>)
    requires Settled(s)
    ensures Settled(Last(s, es))
    decreases |es|
  {
    if |es| > 0 {
      StepSettled(s, es[0]);
      RunSettled(Next(s, es[0]), es[1..]);
    }
  }

  lemma EmptySettled()
    ensures Settled(State([], {}, 1))
  {
    assert ActiveIds([]) == {};
  }

  // ---------------------------------------------------------------------
  // The order of starts
  // ---------------------------------------------------------------------

  function QueuedIds(items: seq<Item>): seq<nat> {
    if |items| == 0 then []
    else
      var n := |items| - 1;
      QueuedIds(items[..n]) + if items[n].status == Queued then [items[n].id] else []
  }

  /** A pump starts the head of the queue, in list order, as far as slots reach. */
  lemma {:induction false} StartsHeadOfQueue(items: seq<Item>, slots: nat)
    ensures |QueuedIds(items)| == Sum(IsQueued, items)
    ensures var q := QueuedIds(items); StartedIds(items, slots) == if |q| <= slots then q else q[..slots]
  {
    if |items| > 0 { StartsHeadOfQueue(items[..|items| - 1], slots); }
  }

  // ---------------------------------------------------------------------
  // How often an item is started
  // ---------------------------------------------------------------------

  function Count(ids: seq<nat>, id: nat): nat {
    if |ids| == 0 then 0 else Count(ids[..|ids| - 1], id) + if ids[|ids| - 1] == id then 1 else 0
  }

  /** How often the item can still be started without the user: a rejection puts
      it back into the queue, even when it comes late. */
  function StartsLeft(it: Item): int {
    if it.retries > 2 then 0 else (if it.status == Queued then 3 else 2) - it.retries
  }

  function StartsLeftOf(id: nat): Item -> int { (it: Item) => if it.id == id then StartsLeft(it) else 0 }

  lemma SumStep(w: Item -> int, items: seq<Item>, i: nat)
    requires i < |items|
    ensures Sum(w, items[..i + 1]) == Sum(w, items[..i]) + w(items[i])
  {
    assert items[..i + 1][..i] == items[..i];
  }

  lemma CountStep(ids: seq<nat>, x: nat, more: bool, id: nat)
    ensures Count(ids + (if more then [x] else []), id) == Count(ids, id) + if more && x == id then 1 else 0
  {
    if more { assert (ids + [x])[..|ids|] == ids; } else { assert ids + [] == ids; }
  }

  /** One item seen by the pump: a start takes one of the starts left. */
  lemma ItemSpends(items: seq<Item>, slots: int, id: nat, j: nat)
    requires j < |items| && items[j].retries <= 2
    ensures StartsLeftOf(id)(items[j]) ==
            StartsLeftOf(id)(Pumped(items, slots)[j]) + if Chosen(items, slots, j) && items[j].id == id then 1 else 0
  {}

  lemma CountStarted(items: seq<Item>, slots: int, id: nat, j: nat)
    requires j < |items|
    ensures Count(StartedIds(items[..j + 1], slots), id) ==
            Count(StartedIds(items[..j], slots), id) + if Chosen(items, slots, j) && items[j].id == id then 1 else 0
  {
    PrefixStep(items, j, slots);
    CountStep(StartedIds(items[..j], slots), items[j].id, Chosen(items, slots, j), id);
  }

  lemma {:induction false} PumpSpends(items: seq<Item>, slots: int, id: nat, i: nat)
    requires i <= |items| && forall j :: 0 <= j < |items| ==> items[j].retries <= 2
    ensures Count(StartedIds(items[..i], slots), id) + Sum(StartsLeftOf(id), Pumped(items, slots)[..i]) ==
            Sum(StartsLeftOf(id), items[..i])
  {
    if i > 0 {
      PumpSpends(items, slots, id, i - 1);
      CountStarted(items, slots, id, i - 1);
      ItemSpends(items, slots, id, i - 1);
      SumStep(StartsLeftOf(id), items, i - 1);
      SumStep(StartsLeftOf(id), Pumped(items, slots), i - 1);
    }
  }

  /** What id can still be started: three times if it is yet to be enqueued. */
  function Budget(s: State, id: nat): int { Sum(StartsLeftOf(id), s.items) + if id < s.nextId then 0 else 3 }

  lemma {:induction false} OneItem(items: seq<Item>, id: nat)
    requires Distinct(items) && forall i :: 0 <= i < |items| ==> items[i].retries <= 2
    ensures 0 <= Sum(StartsLeftOf(id), items) <= 3
    ensures (forall i :: 0 <= i < |items| ==> items[i].id != id) ==> Sum(StartsLeftOf(id), items) == 0
  {
    if |items| > 0 { OneItem(items[..|items| - 1], id); }
  }

  lemma BudgetBounds(s: State, id: nat)
    requires Consistent(s)
    ensures 0 <= Budget(s, id) <= 3
  {
    OneItem(s.items, id);
  }

  lemma EnqueueSpends(s: State, sizes: seq<nat>, id: nat)
    requires Consistent(s)
    ensures Budget(Before(s, Enqueue(sizes)), id) <= Budget(s, id)
  {
    BeforeConsistent(s, Enqueue(sizes));
    OneItem(s.items, id);
    BudgetBounds(Before(s, Enqueue(sizes)), id);
    if id < s.nextId || s.nextId + |sizes| <= id { SumAppend(StartsLeftOf(id), s.items, Fresh(sizes, s.nextId)); }
  }

  lemma BeforeSpends(s: State, e: Event, id: nat)
    requires Consistent(s) && e != Retry(id)
    ensures Budget(Before(s, e), id) <= Budget(s, id)
  {
    match e
    case Enqueue(sizes) => EnqueueSpends(s, sizes, id);
    case Remove(x) => SumFilter(StartsLeftOf(id), (it: Item) => it.id != x, s.items);
    case ClearFinished => SumFilter(StartsLeftOf(id), Unfinished, s.items);
    case _ => SumPointwise(StartsLeftOf(id), s.items, Before(s, e).items);
  }

  lemma StepSpends(s: State, e: Event, id: nat)
    requires Consistent(s)
    ensures Count(StartedBy(s, e), id) + Budget(Next(s, e), id) == Budget(Before(s, e), id)
  {
    BeforeConsistent(s, e);
    if Pumps(e) { PumpSpendsAll(Before(s, e).items, Slots(Before(s, e).items), id); }
  }

  lemma PumpSpendsAll(items: seq<Item>, slots: int, id: nat)
    requires forall j :: 0 <= j < |items| ==> items[j].retries <= 2
    ensures Count(StartedIds(items, slots), id) + Sum(StartsLeftOf(id), Pumped(items, slots)) ==
            Sum(StartsLeftOf(id), items)
  {
    var p := Pumped(items, slots);
    PumpSpends(items, slots, id, |items|);
    assert items[..|items|] == items;
    assert p[..|items|] == p;
  }

  /** How often a run starts id. */
  function Starts(s: State, es: seq<Event>, id: nat): nat
    decreases |es|
  {
    if |es| == 0 then 0 else Count(StartedBy(s, es[0]), id) + Starts(Next(s, es[0]), es[1..], id)
  }

  predicate NoRetry(es: seq<Event>, id: nat) { |es| == 0 || (es[0] != Retry(id) && NoRetry(es[1..], id)) }

  lemma {:induction false} StartsBounded(s: State, es: seq<Event>, id: nat)
    requires Settled(s) && NoRetry(es, id)
    ensures Starts(s, es, id) <= Budget(s, id)
    decreases |es|
  {
    if |es| == 0 {
      BudgetBounds(s, id);
    } else {
      StepSettled(s, es[0]);
      BeforeSpends(s, es[0], id);
      StepSpends(s, es[0], id);
      StartsBounded(Next(s, es[0]), es[1..], id);
    }
  }

  /** From one retry by the user, or the enqueueing, to the next retry, an item is
      started at most three times, whatever else happens in whatever order. */
  lemma StartedAtMostThrice(s: State, e: Event, es: seq<Event>, id: nat)
    requires Settled(s) && NoRetry(es, id)
    ensures Starts(s, [e] + es, id) <= 3
  {
    var run := [e] + es;
    assert run[0] == e && run[1..] == es;
    StepSettled(s, e);
    BeforeConsistent(s, e);
    StepSpends(s, e, id);
    BudgetBounds(Before(s, e), id);
    StartsBounded(Next(s, e), es, id);
  }

  // ---------------------------------------------------------------------
  // The queue drains
  // ---------------------------------------------------------------------

  function Work(it: Item): int { if it.retries <= 2 && Unfinished(it) then 3 - it.retries else 0 }

  /** An upload that is under way ends, one way or another. */
  predicate Ends(s: State, e: Event) { (e.Success? || e.Error? || e.Rejected?) && e.id in s.handles }

  /** A step that gives the queue no new work: nothing is enqueued or retried, and
      no finished item is rejected. */
  ghost predicate Calm(s: State, e: Event) {
    !e.Enqueue? && !e.Retry? &&
    (e.Rejected? ==> forall i :: 0 <= i < |s.items| && s.items[i].id == e.id ==> Unfinished(s.items[i]))
  }

  ghost predicate CalmRun(s: State, es: seq<Event>)
    decreases |es|
  {
    |es| == 0 || (Calm(s, es[0]) && CalmRun(Next(s, es[0]), es[1..]))
  }

  /** How many of the steps end an upload. */
  function EndCount(s: State, es: seq<Event>): nat
    decreases |es|
  {
    if |es| == 0 then 0 else (if Ends(s, es[0]) then 1 else 0) + EndCount(Next(s, es[0]), es[1..])
  }

  lemma CalmWorks(s: State, e: Event)
    requires Consistent(s) && Calm(s, e)
    ensures Sum(Work, Next(s, e).items) <= Sum(Work, s.items)
  {
    match e {
      case Remove(x) => SumFilter(Work, (it: Item) => it.id != x, s.items);
      case ClearFinished => SumFilter(Work, Unfinished, s.items);
      case _ => SumPointwise(Work, s.items, Before(s, e).items);
    }
    PumpWork(Before(s, e).items, Slots(Before(s, e).items));
  }

  lemma EndWorks(s: State, e: Event)
    requires Consistent(s) && Ends(s, e)
    ensures Sum(Work, Next(s, e).items) < Sum(Work, s.items)
  {
    EndWorksBefore(s, e);
    PumpWork(Before(s, e).items, Slots(Before(s, e).items));
  }

  lemma EndWorksBefore(s: State, e: Event)
    requires Consistent(s) && Ends(s, e)
    ensures Sum(Work, Before(s, e).items) < Sum(Work, s.items)
  {
    var i :| 0 <= i < |s.items| && s.items[i].status == Active && s.items[i].id == e.id;
    match e {
      case Success(id) => OneLessWork(s.items, i, Succeeded);
      case Error(id, text) => OneLessWork(s.items, i, FailedWith(text));
      case Rejected(id) => OneLessWork(s.items, i, Bounced);
    }
  }

  lemma OneLessWork(items: seq<Item>, i: nat, patch: Item -> Item)
    requires Distinct(items) && i < |items| && Work(patch(items[i])) < Work(items[i])
    ensures Sum(Work, Update(items, items[i].id, patch)) < Sum(Work, items)
  {
    var items' := Update(items, items[i].id, patch);
    assert Work(items'[i]) < Work(items[i]);
    forall j | 0 <= j < |items|
      ensures Work(items'[j]) <= Work(items[j])
    {
      assert j == i || items[j].id != items[i].id;
    }
    SumPointwise(Work, items, items');
  }

  lemma PumpWork(items: seq<Item>, slots: int)
    ensures Sum(Work, Pumped(items, slots)) <= Sum(Work, items)
  {
    SumPointwise(Work, items, Pumped(items, slots));
  }

  lemma {:induction false} WorkNonNegative(items: seq<Item>)
    ensures Sum(Work, items) >= 0
  {
    if |items| > 0 { WorkNonNegative(items[..|items| - 1]); }
  }

  /** Nothing under way means nothing left to do. */
  lemma IdleIsFinished(s: State)
    requires Settled(s) && s.handles == {}
    ensures forall i :: 0 <= i < |s.items| ==> !Unfinished(s.items[i])
  {
    forall i | 0 <= i < |s.items|
      ensures s.items[i].status != Active
    {
      assert s.items[i].status == Active ==> s.items[i].id in ActiveIds(s.items);
    }
    NoneActive(s.items);
    forall i | 0 <= i < |s.items|
      ensures s.items[i].status != Queued
    {
      if s.items[i].status == Queued { SomeQueued(s.items, i); }
    }
  }

  lemma {:induction false} NoneActive(items: seq<Item>)
    requires forall i :: 0 <= i < |items| ==> items[i].status != Active
    ensures Sum(IsActive, items) == 0
  {
    if |items| > 0 { NoneActive(items[..|items| - 1]); }
  }

  lemma SomeQueued(items: seq<Item>, i: nat)
    requires i < |items| && items[i].status == Queued
    ensures Sum(IsQueued, items) > 0
  {
    SumMore(IsQueued, items, i);
    PrefixStep(items, i, 0);
    SumMore(IsQueued, items, i + 1);
  }

  /** While an upload is under way it can end, and that leaves less work. */
  lemma EndPossible(s: State)
    requires Consistent(s) && s.handles != {}
    ensures exists e :: Ends(s, e) && Sum(Work, Next(s, e).items) < Sum(Work, s.items)
  {
    var i :| 0 <= i < |s.items| && s.items[i].status == Active && s.items[i].id in s.handles;
    var e := Success(s.items[i].id);
    EndWorks(s, e);
    assert Ends(s, e);
  }

  /** The queue drains: however many other steps come between, there are at most
      Work many ends of uploads; while an upload is under way another end is
      possible; and when none is, every item is done or has failed. */
  lemma {:induction false} QueueDrains(s: State, es: seq<Event>)
    requires Settled(s) && CalmRun(s, es)
    ensures EndCount(s, es) + Sum(Work, Last(s, es).items) <= Sum(Work, s.items) && Sum(Work, Last(s, es).items) >= 0
    ensures var u := Last(s, es);
            if u.handles == {} then forall i :: 0 <= i < |u.items| ==> !Unfinished(u.items[i])
            else exists e :: Ends(u, e) && Sum(Work, Next(u, e).items) < Sum(Work, u.items)
    decreases |es|
  {
    if |es| == 0 {
      WorkNonNegative(s.items);
      if s.handles == {} { IdleIsFinished(s); } else { EndPossible(s); }
    } else {
      StepSettled(s, es[0]);
      CalmWorks(s, es[0]);
      if Ends(s, es[0]) { EndWorks(s, es[0]); }
      QueueDrains(Next(s, es[0]), es[1..]);
    }
  }

  // ---------------------------------------------------------------------
  // What is seen of it
  // ---------------------------------------------------------------------

  lemma {:induction false} ActiveCount(items: seq<Item>)
    requires Distinct(items)
    ensures |ActiveIds(items)| == Sum(IsActive, items)
  {
    if |items| == 0 {
      assert ActiveIds(items) == {};
    } else {
      var n := |items| - 1;
      ActiveCount(items[..n]);
      var was := ActiveIds(items[..n]);
      assert items[n].id !in was;
      if items[n].status == Active {
        assert ActiveIds(items) == was + {items[n].id} by { ActiveSnoc(items); }
      } else {
        assert ActiveIds(items) == was by { ActiveSnoc(items); }
      }
    }
  }

  lemma ActiveSnoc(items: seq<Item>)
    requires |items| > 0
    ensures var n := |items| - 1;
            ActiveIds(items) == ActiveIds(items[..n]) + if items[n].status == Active then {items[n].id} else {}
  {
    var n := |items| - 1;
    forall id
      ensures id in ActiveIds(items) <==>
                id in ActiveIds(items[..n]) || (items[n].status == Active && id == items[n].id)
    {
      if i :| 0 <= i < |items| && items[i].status == Active && items[i].id == id {
        assert i < n ==> items[..n][i] == items[i];
      }
      if i :| 0 <= i < n && items[..n][i].status == Active && items[..n][i].id == id {
        assert items[i] == items[..n][i];
      }
    }
  }

  /** After any events in any order at most three uploads are under way, exactly
      those of the active items, and three if anything waits. */
  lemma ThreeAtOnce(s: State, es: seq<Event>, i: nat)
    requires Settled(s) && i < |Last(s, es).items|
    ensures var u := Last(s, es);
            |u.handles| <= 3 && (u.items[i].status == Queued ==> |u.handles| == 3) &&
            (u.items[i].id in u.handles <==> u.items[i].status == Active)
  {
    RunSettled(s, es);
    var u := Last(s, es);
    ActiveCount(u.items);
    if u.items[i].status == Queued { SomeQueued(u.items, i); }
    OnlyActive(u.items, i);
  }

  lemma OnlyActive(items: seq<Item>, i: nat)
    requires Distinct(items) && i < |items|
    ensures items[i].id in ActiveIds(items) <==> items[i].status == Active
  {
    if j :| 0 <= j < |items| && items[j].status == Active && items[j].id == items[i].id { SameItem(items, i, j); }
  }

  lemma SameItem(items: seq<Item>, i: nat, j: nat)
    requires Distinct(items) && i < |items| && j < |items| && items[i].id == items[j].id
    ensures i == j
  {}

  /** The event is about the item id. */
  predicate About(e: Event, id: nat) {
    (e.Progress? || e.Success? || e.Error? || e.Rejected? || e.Retry? || e.Remove?) && e.id == id
  }

  /** An item that was started in the same step, or was not. */
  predicate MaybeStarted(was: Item, now: Item) {
    now == was || (was.status == Queued && now == was.(status := Active, error := None))
  }

  /** Steps that keep every item in its place, and what they make of it. */
  lemma ItemAfter(s: State, e: Event, i: nat)
    requires i < |s.items| && !e.Remove? && !e.ClearFinished?
    ensures |Next(s, e).items| == |s.items| + if e.Enqueue? then |e.sizes| else 0
    ensures var it, now := s.items[i], Next(s, e).items[i];
            if !About(e, it.id) then MaybeStarted(it, now)
            else
              match e
              case Progress(_, n) => now == it.(uploaded := n)
              case Success(_) => now == it.(status := Done, uploaded := it.size)
              case Error(_, text) => now == it.(status := Failed, error := Some(text))
              case Rejected(_) =>
                if it.retries < 2 then
                  MaybeStarted(it.(status := Queued, uploaded := 0, retries := it.retries + 1), now)
                else now == it.(status := Failed, error := Some("authorization rejected by server"))
              case Retry(_) => MaybeStarted(it.(status := Queued, uploaded := 0, error := None), now)
              case _ => true
  {
    var before := Before(s, e).items;
    assert i < |before|;
    if Pumps(e) {
      assert MaybeStarted(before[i], Pumped(before, Slots(before))[i]);
    }
  }

  /** New items come last, with fresh ids in a row and the sizes given. */
  lemma EnqueuedLast(s: State, sizes: seq<nat>, k: nat)
    requires k < |sizes|
    ensures var u := Next(s, Enqueue(sizes)); var it := u.items[|s.items| + k];
            u.nextId == s.nextId + |sizes| && it.id == s.nextId + k && it.size == sizes[k] &&
            it.uploaded == 0 && it.retries == 0 && it.error == None && (it.status == Queued || it.status == Active)
  {
    var before := Before(s, Enqueue(sizes)).items;
    assert before[|s.items| + k] == Fresh(sizes, s.nextId)[k];
    assert MaybeStarted(before[|s.items| + k], Pumped(before, Slots(before))[|s.items| + k]);
  }

  function Ids(items: seq<Item>): seq<nat> {
    if |items| == 0 then []
    else
      var n := |items| - 1;
      Ids(items[..n]) + [items[n].id]
  }

  function Without(ids: seq<nat>, id: nat): seq<nat> {
    if |ids| == 0 then []
    else
      var n := |ids| - 1;
      Without(ids[..n], id) + if ids[n] == id then [] else [ids[n]]
  }

  lemma {:induction false} SameIds(items: seq<Item>, items': seq<Item>)
    requires |items| == |items'| && forall i :: 0 <= i < |items| ==> items[i].id == items'[i].id
    ensures Ids(items) == Ids(items')
  {
    if |items| > 0 { SameIds(items[..|items| - 1], items'[..|items| - 1]); }
  }

  lemma {:induction false} FilterIds(items: seq<Item>, id: nat)
    ensures Ids(Filter((it: Item) => it.id != id, items)) == Without(Ids(items), id)
  {
    if |items| > 0 {
      var n := |items| - 1;
      FilterIds(items[..n], id);
      var f := Filter((it: Item) => it.id != id, items[..n]);
      var ids := Ids(items[..n]);
      assert (ids + [items[n].id])[..|ids|] == ids;
      if items[n].id != id {
        assert (f + [items[n]])[..|f|] == f;
      } else {
        assert f + [] == f && Without(ids, id) + [] == Without(ids, id);
      }
    }
  }

  /** Removing takes the item off the list and ends its upload; the others keep
      their order. */
  lemma RemovedOnly(s: State, id: nat)
    requires Settled(s)
    ensures var u := Next(s, Event.Remove(id)); Ids(u.items) == Without(Ids(s.items), id) && id !in u.handles
    ensures var u := Next(s, Event.Remove(id));
            forall it :: it in u.items ==> exists was :: was in s.items && MaybeStarted(was, it)
  {
    var e := Event.Remove(id);
    var before := Before(s, e).items;
    StepSettled(s, e);
    FilterIds(s.items, id);
    FilterMembers((it: Item) => it.id != id, s.items);
    SameIds(before, Next(s, e).items);
    forall it | it in Next(s, e).items
      ensures exists was :: was in s.items && MaybeStarted(was, it)
      ensures it.id != id
    {
      var i :| 0 <= i < |before| && Next(s, e).items[i] == it;
      assert before[i] in before && MaybeStarted(before[i], it);
    }
  }

  /** Clearing leaves exactly the unfinished items, as they were. */
  lemma ClearedOnly(s: State)
    ensures var u := Next(s, Event.ClearFinished);
            u.handles == s.handles && u.nextId == s.nextId &&
            forall it :: it in u.items <==> it in s.items && it.status != Done && it.status != Failed
  {
    FilterMembers(Unfinished, s.items);
  }

  /** A retried item is queued again, and starts at once if a slot is free. */
  lemma RetriedAgain(s: State, i: nat)
    requires Settled(s) && i < |s.items| && s.items[i].status == Failed && |s.handles| < 3
    ensures Next(s, Event.Retry(s.items[i].id)).items[i].status == Active
  {
    var e := Event.Retry(s.items[i].id);
    var u := Next(s, e);
    ItemAfter(s, e, i);
    StepSettled(s, e);
    ActiveCount(s.items);
    var before := Before(s, e).items;
    NoneQueuedWhileFree(s);
    ActiveCount(u.items);
    OnlyQueued(before, i);
    SumPointwise(IsActive, s.items, before);
    assert Sum(IsQueued, before[..i]) == 0;
    assert Chosen(before, Slots(before), i);
  }

  lemma NoneQueuedWhileFree(s: State)
    requires Settled(s) && |s.handles| < 3
    ensures forall i :: 0 <= i < |s.items| ==> s.items[i].status != Queued
  {
    ActiveCount(s.items);
    forall i | 0 <= i < |s.items|
      ensures s.items[i].status != Queued
    {
      if s.items[i].status == Queued { SomeQueued(s.items, i); }
    }
  }

  lemma {:induction false} NoneQueued(items: seq<Item>)
    requires forall i :: 0 <= i < |items| ==> items[i].status != Queued
    ensures Sum(IsQueued, items) == 0
  {
    if |items| > 0 { NoneQueued(items[..|items| - 1]); }
  }

  lemma OnlyQueued(items: seq<Item>, i: nat)
    requires i < |items| && forall j :: 0 <= j < |items| && j != i ==> items[j].status != Queued
    ensures Sum(IsQueued, items[..i]) == 0
  {
    NoneQueued(items[..i]);
  }

  /** The bound of three starts is attained: an item that is rejected again and again
      is started three times and then fails. */
  lemma RejectedThrice(size: nat)
    ensures var s0 := State([], {}, 1);
            var s1 := Next(s0, Enqueue([size]));
            var s2 := Next(s1, Rejected(1));
            var s3 := Next(s2, Rejected(1));
            var s4 := Next(s3, Rejected(1));
            s1.items[0].status == Active && s2.items[0].status == Active && s3.items[0].status == Active &&
            s4.items[0].status == Failed && s4.handles == {}
  {
    var s0 := State([], {}, 1);
    EmptySettled();
    var s1 := Next(s0, Enqueue([size]));
    StepSettled(s0, Enqueue([size]));
    EnqueuedLast(s0, [size], 0);
    var s2 := RejectedOnce(s1);
    var s3 := RejectedOnce(s2);
    StepSettled(s3, Rejected(1));
    ItemAfter(s3, Rejected(1), 0);
    OnlyActive(Next(s3, Rejected(1)).items, 0);
  }

  lemma RejectedOnce(s: State) returns (u: State)
    requires Settled(s) && |s.items| == 1 && s.items[0].id == 1 && s.items[0].status == Active && s.items[0].retries < 2
    ensures u == Next(s, Rejected(1)) && Settled(u) && |u.items| == 1 && u.items[0].id == 1
    ensures u.items[0].status == Active && u.items[0].retries == s.items[0].retries + 1
  {
    u := Next(s, Rejected(1));
    StepSettled(s, Rejected(1));
    ItemAfter(s, Rejected(1), 0);
    Single(IsQueued, u.items);
    Single(IsActive, u.items);
  }

  lemma Single(w: Item -> int, items: seq<Item>)
    requires |items| == 1
    ensures Sum(w, items) == w(items[0])
  {
    assert items[..0] == [];
  }
}
