/** The bounded cache of embedding loads in flight: its synchronous pieces as a class over an
    insertion-ordered map, and every interleaving of them as a state machine. */
module EmbeddingCache {
  import opened Common

  /** One entry of the map: a key and the identity of the load whose promise it holds. */
  datatype Entry = Entry(key: string, load: nat)

  // ---------------------------------------------------------------- the insertion-ordered map

  /** Where `key` stands at or after `from`, or the length of the map if it does not. */
  function IndexFrom(entries: seq<Entry>, key: string, from: nat): (p: nat)
    requires from <= |entries|
    ensures from <= p <= |entries|
    ensures p < |entries| ==> entries[p].key == key
    ensures forall i :: from <= i < p ==> entries[i].key != key
    decreases |entries| - from
  {
    if from == |entries| || entries[from].key == key then from else IndexFrom(entries, key, from + 1)
  }

  function IndexOf(entries: seq<Entry>, key: string): nat { IndexFrom(entries, key, 0) }

  predicate Has(entries: seq<Entry>, key: string) { IndexOf(entries, key) < |entries| }

  function Delete(entries: seq<Entry>, key: string): seq<Entry> {
    var p := IndexOf(entries, key);
    if p < |entries| then entries[..p] + entries[p + 1..] else entries
  }

  ghost predicate DistinctKeys(entries: seq<Entry>) {
    forall i, j :: 0 <= i < j < |entries| ==> entries[i].key != entries[j].key
  }

  /** What is left when the oldest entries are evicted down to `capacity`. */
  function Newest(entries: seq<Entry>, capacity: nat): seq<Entry> {
    if |entries| <= capacity then entries else entries[|entries| - capacity..]
  }

  // ---------------------------------------------------------------- the class

  class BoundedEmbeddingCache {
    const capacity: nat
    var values: seq<Entry>

    constructor (capacity: nat)
      ensures this.capacity == capacity && values == []
    {
      this.capacity := capacity;
      values := [];
    }

    /** `get` up to its `await`; `started` names the load that a miss starts. Returns the load awaited
        and whether this call has to clear up after it. */
    method Get(key: string, started: nat) returns (load: nat, owner: bool)
      modifies this`values
      ensures values == AfterGet(old(values), capacity, key, started)
      ensures load == Awaited(old(values), capacity, key, started)
      ensures owner <==> capacity > 0 && !Has(old(values), key)
    {
      if capacity == 0 {
        return started, false;
      }
      var p := IndexOf(values, key);
      if p < |values| {
        var cached := values[p].load;
        assert values[p] == Entry(key, cached);
        values := values[..p] + values[p + 1..];
        assert values == Delete(old(values), key);
        values := values + [Entry(key, cached)];
        return cached, false;
      }
      values := values + [Entry(key, started)];
      Evict();
      return started, true;
    }

    /** The eviction loop: drops the first, least recently used, entry while there are too many. */
    method Evict()
      modifies this`values
      ensures values == Newest(old(values), capacity)
    {
      while |values| > capacity
        invariant Newest(values, capacity) == Newest(old(values), capacity)
        decreases |values|
      {
        values := values[1..];
      }
    }

    /** The `catch` branch of the call that started `load`. */
    method LoadFailed(key: string, load: nat)
      modifies this`values
      ensures values == AfterFailure(old(values), key, load)
    {
      var p := IndexOf(values, key);
      if p < |values| && values[p].load == load {
        values := values[..p] + values[p + 1..];
      }
    }
  }

  function AfterGet(entries: seq<Entry>, capacity: nat, key: string, started: nat): seq<Entry> {
    if capacity == 0 then entries
    else if Has(entries, key) then Delete(entries, key) + [entries[IndexOf(entries, key)]]
    else Newest(entries + [Entry(key, started)], capacity)
  }

  function Awaited(entries: seq<Entry>, capacity: nat, key: string, started: nat): nat {
    if capacity > 0 && Has(entries, key) then entries[IndexOf(entries, key)].load else started
  }

  function AfterFailure(entries: seq<Entry>, key: string, load: nat): seq<Entry> {
    if Has(entries, key) && entries[IndexOf(entries, key)].load == load then Delete(entries, key) else entries
  }

  // ---------------------------------------------------------------- every interleaving

  datatype Outcome = Returned(vector: Option<seq<real>>) | Threw

  /** A load: its key, and its outcome once it has settled. */
  datatype Load = Load(key: string, outcome: Option<Outcome>)

  /** A `get` call that waits for a load. */
  datatype Caller = Caller(key: string, load: nat, owner: bool)

  datatype Answer = Answer(key: string, outcome: Outcome)

  datatype State = State(
    entries: seq<Entry>, loads: seq<Load>, waiting: seq<Caller>, answers: seq<Answer>, uses: seq<string>)

  /** A `get` call runs to its `await`; a load settles; the `caller`-th waiting call goes on; or a `get` call that
      misses gets an exception from starting its load. */
  datatype Event =
    | Get(key: string)
    | Settle(load: nat, outcome: Outcome)
    | Resume(caller: nat)
    | StartThrows(key: string)

  const INITIAL := State([], [], [], [], [])

  predicate Enabled(capacity: nat, s: State, e: Event) {
    match e
    case Get(key) => true
    case Settle(load, outcome) => load < |s.loads| && s.loads[load].outcome == None
    case Resume(caller) =>
      caller < |s.waiting| && s.waiting[caller].load < |s.loads| && s.loads[s.waiting[caller].load].outcome.Some?
    case StartThrows(key) => capacity == 0 || !Has(s.entries, key)
  }

  function Step(capacity: nat, s: State, e: Event): State
    requires Enabled(capacity, s, e)
  {
    match e
    case Get(key) => StepGet(capacity, s, key)
    case Settle(load, outcome) => s.(loads := s.loads[load := s.loads[load].(outcome := Some(outcome))])
    case Resume(caller) => StepResume(s, caller)
    case StartThrows(key) => s.(answers := s.answers + [Answer(key, Threw)])
  }

  function StepGet(capacity: nat, s: State, key: string): State {
    var started := |s.loads|;
    var starts := capacity == 0 || !Has(s.entries, key);
    s.(entries := AfterGet(s.entries, capacity, key, started),
       loads := if starts then s.loads + [Load(key, None)] else s.loads,
       waiting := s.waiting + [Caller(key, Awaited(s.entries, capacity, key, started), capacity > 0 && starts)],
       uses := s.uses + [key])
  }

  function StepResume(s: State, caller: nat): State
    requires caller < |s.waiting| && s.waiting[caller].load < |s.loads| && s.loads[s.waiting[caller].load].outcome.Some?
  {
    var c := s.waiting[caller];
    var outcome := s.loads[c.load].outcome.value;
    s.(entries := if c.owner && outcome == Threw then AfterFailure(s.entries, c.key, c.load) else s.entries,
       waiting := s.waiting[..caller] + s.waiting[caller + 1..],
       answers := s.answers + [Answer(c.key, outcome)])
  }

  /** The state after a run of events, if every event was possible when it came. */
  function Run(capacity: nat, events: seq<Event>): Option<State> {
    if events == [] then Some(INITIAL)
    else
      var last := events[|events| - 1];
      match Run(capacity, events[..|events| - 1])
      case None => None
      case Some(s) => if Enabled(capacity, s, last) then Some(Step(capacity, s, last)) else None
  }

  // ---------------------------------------------------------------- what every interleaving keeps

  /** The position of the latest use of `key`, or -1. */
  function LastUse(uses: seq<string>, key: string): (p: int)
    ensures -1 <= p < |uses|
  {
    if uses == [] then -1
    else if uses[|uses| - 1] == key then |uses| - 1
    else LastUse(uses[..|uses| - 1], key)
  }

  /** The keys stand in the order of their last use. */
  ghost predicate ByLastUse(entries: seq<Entry>, uses: seq<string>) {
    && (forall i :: 0 <= i < |entries| ==> LastUse(uses, entries[i].key) >= 0)
    && (forall i, j :: 0 <= i < j < |entries| ==> LastUse(uses, entries[i].key) < LastUse(uses, entries[j].key))
  }

  ghost predicate HasReturned(s: State, load: nat) {
    load < |s.loads| && s.loads[load].outcome.Some? && s.loads[load].outcome.value.Returned?
  }

  ghost predicate OwnerWaits(s: State, load: nat) {
    exists k :: 0 <= k < |s.waiting| && s.waiting[k].owner && s.waiting[k].load == load
  }

  ghost predicate LoadOf(s: State, load: nat, key: string) {
    load < |s.loads| && s.loads[load].key == key
  }

  /** The entry holds a load of its own key, and unless that has returned its owner still waits. */
  ghost predicate EntryKept(s: State, entry: Entry) {
    LoadOf(s, entry.load, entry.key) && (HasReturned(s, entry.load) || OwnerWaits(s, entry.load))
  }

  ghost predicate EntriesKept(s: State) {
    forall i :: 0 <= i < |s.entries| ==> EntryKept(s, s.entries[i])
  }

  ghost predicate CallersKept(s: State) {
    forall k :: 0 <= k < |s.waiting| ==> LoadOf(s, s.waiting[k].load, s.waiting[k].key)
  }

  ghost predicate Invariant(capacity: nat, s: State) {
    |s.entries| <= capacity && ByLastUse(s.entries, s.uses) && EntriesKept(s) && CallersKept(s)
  }

  /** The entries after `get`: those before it in their order, less the evicted, then the one of `key`. */
  ghost predicate MovedToEnd(entries: seq<Entry>, capacity: nat, key: string, load: nat, after: seq<Entry>) {
    && 0 < |after| <= capacity
    && after[|after| - 1] == Entry(key, load)
    && (forall i :: 0 <= i < |after| - 1 ==>
          Origin(entries, capacity, key, i) < |entries|
          && after[i] == entries[Origin(entries, capacity, key, i)] && after[i].key != key)
  }

  lemma AfterGetEntries(entries: seq<Entry>, capacity: nat, key: string, started: nat)
    requires |entries| <= capacity && capacity > 0 && DistinctKeys(entries)
    ensures MovedToEnd(entries, capacity, key, Awaited(entries, capacity, key, started),
                       AfterGet(entries, capacity, key, started))
  {
    if Has(entries, key) {
      AfterHit(entries, capacity, key, started);
    } else {
      AfterMiss(entries, capacity, key, started);
    }
  }

  lemma AfterHit(entries: seq<Entry>, capacity: nat, key: string, started: nat)
    requires |entries| <= capacity && capacity > 0 && DistinctKeys(entries) && Has(entries, key)
    ensures MovedToEnd(entries, capacity, key, Awaited(entries, capacity, key, started),
                       AfterGet(entries, capacity, key, started))
  {
    var p := IndexOf(entries, key);
    var after := AfterGet(entries, capacity, key, started);
    assert after == entries[..p] + entries[p + 1..] + [entries[p]];
    forall i | 0 <= i < |after| - 1
      ensures after[i] == entries[Origin(entries, capacity, key, i)] && after[i].key != key
    {
      assert Origin(entries, capacity, key, i) != p;
    }
  }

  lemma AfterMiss(entries: seq<Entry>, capacity: nat, key: string, started: nat)
    requires |entries| <= capacity && capacity > 0 && !Has(entries, key)
    ensures MovedToEnd(entries, capacity, key, Awaited(entries, capacity, key, started),
                       AfterGet(entries, capacity, key, started))
  {
    var after := AfterGet(entries, capacity, key, started);
    assert |entries| < capacity ==> after == entries + [Entry(key, started)];
    assert |entries| == capacity ==> after == entries[1..] + [Entry(key, started)];
  }

  /** Where the `i`-th entry after `get` stood before it. */
  ghost function Origin(entries: seq<Entry>, capacity: nat, key: string, i: nat): (j: nat)
    ensures i <= j <= i + 1
  {
    if Has(entries, key) then (if i < IndexOf(entries, key) then i else i + 1)
    else if |entries| < capacity then i else i + 1
  }

  lemma LastUseStep(uses: seq<string>, used: string, key: string)
    ensures LastUse(uses + [used], key) == if used == key then |uses| else LastUse(uses, key)
  {
    assert (uses + [used])[..|uses|] == uses;
  }

  lemma UseAfterGet(capacity: nat, s: State, key: string, i: nat)
    requires Invariant(capacity, s) && capacity > 0 && i < |AfterGet(s.entries, capacity, key, |s.loads|)|
    ensures var after := AfterGet(s.entries, capacity, key, |s.loads|);
            && (i == |after| - 1 ==> LastUse(s.uses + [key], after[i].key) == |s.uses|)
            && (i < |after| - 1 ==>
                  && Origin(s.entries, capacity, key, i) < |s.entries|
                  && LastUse(s.uses + [key], after[i].key)
                      == LastUse(s.uses, s.entries[Origin(s.entries, capacity, key, i)].key))
  {
    var after := AfterGet(s.entries, capacity, key, |s.loads|);
    AfterGetEntries(s.entries, capacity, key, |s.loads|);
    LastUseStep(s.uses, key, after[i].key);
  }

  lemma UsesAscendAfterGet(capacity: nat, s: State, key: string, i: nat, j: nat)
    requires Invariant(capacity, s) && capacity > 0 && i < j < |AfterGet(s.entries, capacity, key, |s.loads|)|
    ensures var after := AfterGet(s.entries, capacity, key, |s.loads|);
            LastUse(s.uses + [key], after[i].key) < LastUse(s.uses + [key], after[j].key)
  {
    UseAfterGet(capacity, s, key, i);
    UseAfterGet(capacity, s, key, j);
  }

  lemma GetKeepsOrder(capacity: nat, s: State, key: string)
    requires Invariant(capacity, s)
    ensures ByLastUse(StepGet(capacity, s, key).entries, s.uses + [key])
  {
    var after := StepGet(capacity, s, key).entries;
    if capacity == 0 {
      assert after == [];
    } else {
      forall i | 0 <= i < |after|
        ensures LastUse(s.uses + [key], after[i].key) >= 0
      {
        UseAfterGet(capacity, s, key, i);
      }
      forall i, j | 0 <= i < j < |after|
        ensures LastUse(s.uses + [key], after[i].key) < LastUse(s.uses + [key], after[j].key)
      {
        UsesAscendAfterGet(capacity, s, key, i, j);
      }
    }
  }

  lemma GetKeepsSize(capacity: nat, s: State, key: string)
    requires Invariant(capacity, s)
    ensures |StepGet(capacity, s, key).entries| <= capacity
  {
    if capacity > 0 {
      AfterGetEntries(s.entries, capacity, key, |s.loads|);
    }
  }

  lemma GetKeepsEntry(capacity: nat, s: State, key: string, entry: Entry)
    requires EntryKept(s, entry)
    ensures EntryKept(StepGet(capacity, s, key), entry)
  {
    if OwnerWaits(s, entry.load) {
      var k :| 0 <= k < |s.waiting| && s.waiting[k].owner && s.waiting[k].load == entry.load;
      assert StepGet(capacity, s, key).waiting[k] == s.waiting[k];
    }
  }

  lemma StartedIsKept(capacity: nat, s: State, key: string)
    requires capacity > 0 && !Has(s.entries, key)
    ensures EntryKept(StepGet(capacity, s, key), Entry(key, |s.loads|))
  {
    assert StepGet(capacity, s, key).waiting[|s.waiting|] == Caller(key, |s.loads|, true);
  }

  lemma GetKeepsEntries(capacity: nat, s: State, key: string)
    requires Invariant(capacity, s)
    ensures EntriesKept(StepGet(capacity, s, key))
  {
    if capacity > 0 {
      var after := AfterGet(s.entries, capacity, key, |s.loads|);
      AfterGetEntries(s.entries, capacity, key, |s.loads|);
      forall i | 0 <= i < |after|
        ensures EntryKept(StepGet(capacity, s, key), after[i])
      {
        if i == |after| - 1 && !Has(s.entries, key) {
          StartedIsKept(capacity, s, key);
        } else {
          var j := if i == |after| - 1 then IndexOf(s.entries, key) else Origin(s.entries, capacity, key, i);
          assert after[i] == s.entries[j];
          GetKeepsEntry(capacity, s, key, s.entries[j]);
        }
      }
    }
  }

  lemma GetKeepsCallers(capacity: nat, s: State, key: string)
    requires Invariant(capacity, s)
    ensures CallersKept(StepGet(capacity, s, key))
  {
    var s' := StepGet(capacity, s, key);
    forall k | 0 <= k < |s'.waiting|
      ensures LoadOf(s', s'.waiting[k].load, s'.waiting[k].key)
    {
      if k < |s.waiting| {
        assert LoadOf(s, s.waiting[k].load, s.waiting[k].key);
      } else if capacity > 0 && Has(s.entries, key) {
        assert EntryKept(s, s.entries[IndexOf(s.entries, key)]);
      }
    }
  }

  lemma SettleKeeps(capacity: nat, s: State, load: nat, outcome: Outcome)
    requires Invariant(capacity, s) && Enabled(capacity, s, Settle(load, outcome))
    ensures Invariant(capacity, Step(capacity, s, Settle(load, outcome)))
  {
    var s' := Step(capacity, s, Settle(load, outcome));
    assert forall l: nat, k: string :: LoadOf(s, l, k) ==> LoadOf(s', l, k);
    assert forall l: nat :: HasReturned(s, l) ==> HasReturned(s', l);
    assert forall l: nat :: OwnerWaits(s, l) ==> OwnerWaits(s', l) by {
      assert s'.waiting == s.waiting;
    }
  }

  /** A call that goes on removes an entry only if its own load threw, and then exactly the entry of that load. */
  ghost predicate DropsOwnFailure(s: State, c: Caller, entries': seq<Entry>)
    requires c.load < |s.loads|
  {
    if c.owner && s.loads[c.load].outcome == Some(Threw)
    then forall entry :: entry in entries' <==> entry in s.entries && entry.load != c.load
    else entries' == s.entries
  }

  lemma ResumeEntries(capacity: nat, s: State, caller: nat)
    requires Invariant(capacity, s) && Enabled(capacity, s, Resume(caller))
    ensures DropsOwnFailure(s, s.waiting[caller], StepResume(s, caller).entries)
    ensures |StepResume(s, caller).entries| <= |s.entries| && ByLastUse(StepResume(s, caller).entries, s.uses)
  {
    var c := s.waiting[caller];
    if c.owner && s.loads[c.load].outcome == Some(Threw) {
      FailureEntries(capacity, s, c.key, c.load);
    }
  }

  lemma DeleteKeepsOrder(entries: seq<Entry>, key: string, uses: seq<string>)
    requires ByLastUse(entries, uses) && Has(entries, key)
    ensures |Delete(entries, key)| <= |entries| && ByLastUse(Delete(entries, key), uses)
  {
    var p, rest := IndexOf(entries, key), Delete(entries, key);
    forall i | 0 <= i < |rest|
      ensures rest[i] == entries[if i < p then i else i + 1]
    {
    }
  }

  lemma DeleteEntries(entries: seq<Entry>, key: string, entry: Entry)
    requires DistinctKeys(entries) && Has(entries, key)
    ensures entry in Delete(entries, key) <==> entry in entries && entry.key != key
  {
    var p := IndexOf(entries, key);
    assert entries == entries[..p] + [entries[p]] + entries[p + 1..];
    assert entry in entries[..p] ==> entry.key != key;
    if entry in entries[p + 1..] {
      var i :| p + 1 <= i < |entries| && entries[i] == entry;
    }
  }

  lemma FailureEntries(capacity: nat, s: State, key: string, load: nat)
    requires Invariant(capacity, s) && LoadOf(s, load, key)
    ensures var entries' := AfterFailure(s.entries, key, load);
            && (forall entry :: entry in entries' <==> entry in s.entries && entry.load != load)
            && |entries'| <= |s.entries| && ByLastUse(entries', s.uses)
  {
    var p := IndexOf(s.entries, key);
    forall i | 0 <= i < |s.entries| && s.entries[i].load == load
      ensures s.entries[i].key == key && i == p
    {
      assert LoadOf(s, s.entries[i].load, s.entries[i].key);
    }
    if p < |s.entries| && s.entries[p].load == load {
      DeleteKeepsOrder(s.entries, key, s.uses);
      forall entry
        ensures entry in Delete(s.entries, key) <==> entry in s.entries && entry.load != load
      {
        DeleteEntries(s.entries, key, entry);
      }
    }
  }

  /** What is left of an entry's load when another caller goes on, or this one that has not failed. */
  lemma ResumeKeepsEntry(s: State, caller: nat, entry: Entry)
    requires caller < |s.waiting| && LoadOf(s, s.waiting[caller].load, s.waiting[caller].key)
    requires s.loads[s.waiting[caller].load].outcome.Some? && EntryKept(s, entry)
    requires s.waiting[caller].owner && s.waiting[caller].load == entry.load ==> HasReturned(s, entry.load)
    ensures EntryKept(StepResume(s, caller), entry)
  {
    if !HasReturned(s, entry.load) {
      var k :| 0 <= k < |s.waiting| && s.waiting[k].owner && s.waiting[k].load == entry.load;
      assert StepResume(s, caller).waiting[if k < caller then k else k - 1] == s.waiting[k];
    }
  }

  lemma ResumeKeepsEntries(capacity: nat, s: State, caller: nat)
    requires Invariant(capacity, s) && Enabled(capacity, s, Resume(caller))
    ensures EntriesKept(StepResume(s, caller))
  {
    var s', c := StepResume(s, caller), s.waiting[caller];
    ResumeEntries(capacity, s, caller);
    forall i | 0 <= i < |s'.entries|
      ensures EntryKept(s', s'.entries[i])
    {
      assert s'.entries[i] in s'.entries && s'.entries[i] in s.entries;
      ResumeKeepsEntry(s, caller, s'.entries[i]);
    }
  }

  lemma ResumeKeepsCallers(s: State, caller: nat)
    requires caller < |s.waiting| && LoadOf(s, s.waiting[caller].load, s.waiting[caller].key)
    requires s.loads[s.waiting[caller].load].outcome.Some? && CallersKept(s)
    ensures CallersKept(StepResume(s, caller))
  {
    var s' := StepResume(s, caller);
    forall k | 0 <= k < |s'.waiting|
      ensures LoadOf(s', s'.waiting[k].load, s'.waiting[k].key)
    {
      assert s'.waiting[k] == s.waiting[if k < caller then k else k + 1];
    }
  }

  lemma StepKeeps(capacity: nat, s: State, e: Event)
    requires Invariant(capacity, s) && Enabled(capacity, s, e)
    ensures Invariant(capacity, Step(capacity, s, e))
  {
    match e
    case Get(key) =>
      GetKeepsSize(capacity, s, key);
      GetKeepsOrder(capacity, s, key);
      GetKeepsEntries(capacity, s, key);
      GetKeepsCallers(capacity, s, key);
    case Settle(load, outcome) => SettleKeeps(capacity, s, load, outcome);
    case Resume(caller) =>
      ResumeEntries(capacity, s, caller);
      ResumeKeepsEntries(capacity, s, caller);
      ResumeKeepsCallers(s, caller);
    case StartThrows(key) => StartThrowsKeeps(capacity, s, key);
  }

  lemma StartThrowsKeeps(capacity: nat, s: State, key: string)
    requires Invariant(capacity, s)
    ensures Invariant(capacity, s.(answers := s.answers + [Answer(key, Threw)]))
  {
    var s' := s.(answers := s.answers + [Answer(key, Threw)]);
    assert forall l: nat :: OwnerWaits(s, l) ==> OwnerWaits(s', l) by {
      assert s'.waiting == s.waiting;
    }
  }

  /** Every reachable state: at most `capacity` distinct keys in the order of their last use, each with a load of its
      own key; and once no call waits any more, no load in the cache has failed or is still open. */
  lemma {:induction false} CacheInvariant(capacity: nat, events: seq<Event>)
    requires Run(capacity, events).Some?
    ensures Invariant(capacity, Run(capacity, events).value)
    ensures DistinctKeys(Run(capacity, events).value.entries)
    ensures var s := Run(capacity, events).value;
            s.waiting == [] ==> forall i :: 0 <= i < |s.entries| ==> HasReturned(s, s.entries[i].load)
  {
    if events != [] {
      CacheInvariant(capacity, events[..|events| - 1]);
      StepKeeps(capacity, Run(capacity, events[..|events| - 1]).value, events[|events| - 1]);
    }
  }

  /** A failed load takes only its own entry along: any other entry, also a newer one for the same key, stays. */
  lemma FailureSparesOtherLoads(capacity: nat, events: seq<Event>, caller: nat)
    requires Run(capacity, events).Some? && Enabled(capacity, Run(capacity, events).value, Resume(caller))
    ensures var s := Run(capacity, events).value;
            DropsOwnFailure(s, s.waiting[caller], Step(capacity, s, Resume(caller)).entries)
  {
    CacheInvariant(capacity, events);
    ResumeEntries(capacity, Run(capacity, events).value, caller);
  }

  /** An entry that a `get` evicts was used less recently than every entry that stays. */
  lemma EvictsLeastRecentlyUsed(capacity: nat, events: seq<Event>, key: string, gone: Entry, kept: Entry)
    requires Run(capacity, events).Some?
    requires gone in Run(capacity, events).value.entries
    requires gone !in StepGet(capacity, Run(capacity, events).value, key).entries
    requires kept in StepGet(capacity, Run(capacity, events).value, key).entries
    ensures !Has(Run(capacity, events).value.entries, key) && gone.key != key
    ensures var uses := Run(capacity, events).value.uses + [key];
            LastUse(uses, gone.key) < LastUse(uses, kept.key)
  {
    var s := Run(capacity, events).value;
    CacheInvariant(capacity, events);
    LastUseStep(s.uses, key, gone.key);
    LastUseStep(s.uses, key, kept.key);
    if Has(s.entries, key) {
      HitKeepsEntries(s.entries, capacity, key, gone);
      assert false;
    } else {
      MissEvictsFirst(s.entries, capacity, key, |s.loads|, gone, kept);
    }
  }

  lemma HitKeepsEntries(entries: seq<Entry>, capacity: nat, key: string, entry: Entry)
    requires DistinctKeys(entries) && Has(entries, key) && capacity > 0 && entry in entries
    ensures forall started :: entry in AfterGet(entries, capacity, key, started)
  {
    DeleteEntries(entries, key, entry);
    if entry.key == key {
      assert entry == entries[IndexOf(entries, key)];
    }
  }

  lemma MissEvictsFirst(entries: seq<Entry>, capacity: nat, key: string, started: nat, gone: Entry, kept: Entry)
    requires |entries| <= capacity && capacity > 0 && !Has(entries, key)
    requires gone in entries && gone !in AfterGet(entries, capacity, key, started)
    requires kept in AfterGet(entries, capacity, key, started)
    ensures gone == entries[0] && gone.key != key
    ensures kept == Entry(key, started) || exists i :: 0 < i < |entries| && entries[i] == kept
  {
    var after := AfterGet(entries, capacity, key, started);
    AfterMissIs(entries, capacity, key, started);
    assert gone in entries + [Entry(key, started)];
    assert entries == [entries[0]] + entries[1..];
    assert gone !in entries[1..];
    if kept != Entry(key, started) {
      assert kept in entries[1..];
    }
  }

  lemma AfterMissIs(entries: seq<Entry>, capacity: nat, key: string, started: nat)
    requires |entries| <= capacity && capacity > 0 && !Has(entries, key)
    ensures AfterGet(entries, capacity, key, started)
         == if |entries| < capacity then entries + [Entry(key, started)] else entries[1..] + [Entry(key, started)]
  {
  }

  // ---------------------------------------------------------------- agreement with loading every time

  /** Every load that has settled did so with an outcome that a load of its key may have. */
  predicate LoadsMay(may: (string, Outcome) -> bool, s: State) {
    forall l :: 0 <= l < |s.loads| && s.loads[l].outcome.Some? ==> may(s.loads[l].key, s.loads[l].outcome.value)
  }

  /** Every load that could not even be started was of a key whose loads may throw. */
  predicate StartsMay(may: (string, Outcome) -> bool, events: seq<Event>) {
    forall i :: 0 <= i < |events| && events[i].StartThrows? ==> may(events[i].key, Threw)
  }

  predicate AnswersMay(may: (string, Outcome) -> bool, s: State) {
    forall a :: 0 <= a < |s.answers| ==> may(s.answers[a].key, s.answers[a].outcome)
  }

  /** Whatever loads of a key may come to, that and nothing else is what the callers of the key get, hit or miss. */
  lemma {:induction false} AnswersAreOfTheKey(capacity: nat, events: seq<Event>, may: (string, Outcome) -> bool)
    requires Run(capacity, events).Some? && LoadsMay(may, Run(capacity, events).value) && StartsMay(may, events)
    ensures AnswersMay(may, Run(capacity, events).value)
  {
    if events != [] {
      var front, e := events[..|events| - 1], events[|events| - 1];
      var before := Run(capacity, front).value;
      EarlierLoadsMay(capacity, before, e, may);
      AnswersAreOfTheKey(capacity, front, may);
      CacheInvariant(capacity, front);
      if e.Resume? {
        assert LoadOf(before, before.waiting[e.caller].load, before.waiting[e.caller].key);
      }
    }
  }

  lemma EarlierLoadsMay(capacity: nat, before: State, e: Event, may: (string, Outcome) -> bool)
    requires Enabled(capacity, before, e) && LoadsMay(may, Step(capacity, before, e))
    ensures LoadsMay(may, before)
  {
    var after := Step(capacity, before, e);
    assert forall l :: 0 <= l < |before.loads| && before.loads[l].outcome.Some? ==> after.loads[l] == before.loads[l];
  }

  /** The cache is transparent: if a load of a key always comes to the same, a vector, nothing or an exception, then
      that is what every caller of the key gets, at every capacity and in every interleaving. */
  lemma AnswersAreUncached(capacity: nat, events: seq<Event>, source: string -> Outcome)
    requires Run(capacity, events).Some?
    requires forall l :: l in Run(capacity, events).value.loads && l.outcome.Some? ==> l.outcome.value == source(l.key)
    requires forall e :: e in events && e.StartThrows? ==> source(e.key) == Threw
    ensures forall a :: a in Run(capacity, events).value.answers ==> a.outcome == source(a.key)
  {
    AnswersAreOfTheKey(capacity, events, (key, outcome) => outcome == source(key));
  }

  // ---------------------------------------------------------------- the reference: least recently used

  /** `keys` without the first occurrence of `key`. */
  function Remove(keys: seq<string>, key: string): seq<string> {
    if keys == [] then []
    else if keys[0] == key then keys[1..]
    else [keys[0]] + Remove(keys[1..], key)
  }

  /** All keys used so far, each once, the least recently used first. */
  function Recency(uses: seq<string>): seq<string> {
    if uses == [] then []
    else
      var last := uses[|uses| - 1];
      Remove(Recency(uses[..|uses| - 1]), last) + [last]
  }

  function LastKeys(keys: seq<string>, capacity: nat): seq<string> {
    if |keys| <= capacity then keys else keys[|keys| - capacity..]
  }

  function Keys(entries: seq<Entry>): (keys: seq<string>)
    ensures |keys| == |entries|
    ensures forall i :: 0 <= i < |entries| ==> keys[i] == entries[i].key
  {
    seq(|entries|, i requires 0 <= i < |entries| => entries[i].key)
  }

  ghost predicate Distinct(keys: seq<string>) {
    keys == [] || (keys[0] !in keys[1..] && Distinct(keys[1..]))
  }

  lemma {:induction false} RemoveDrops(keys: seq<string>, key: string)
    requires Distinct(keys)
    ensures forall k :: k in Remove(keys, key) <==> k in keys && k != key
    ensures Distinct(Remove(keys, key))
  {
    if keys != [] {
      RemoveDrops(keys[1..], key);
      assert keys == [keys[0]] + keys[1..];
      if keys[0] != key {
        assert Remove(keys, key)[1..] == Remove(keys[1..], key);
      }
    }
  }

  lemma {:induction false} DistinctWithLast(keys: seq<string>, key: string)
    requires Distinct(keys) && key !in keys
    ensures Distinct(keys + [key])
  {
    if keys != [] {
      DistinctWithLast(keys[1..], key);
      assert (keys + [key])[1..] == keys[1..] + [key];
    }
  }

  lemma {:induction false} RecencyIsDistinct(uses: seq<string>)
    ensures Distinct(Recency(uses))
  {
    if uses != [] {
      var earlier, last := Recency(uses[..|uses| - 1]), uses[|uses| - 1];
      RecencyIsDistinct(uses[..|uses| - 1]);
      RemoveDrops(earlier, last);
      DistinctWithLast(Remove(earlier, last), last);
    }
  }

  lemma {:induction false} RemoveRight(a: seq<string>, b: seq<string>, key: string)
    requires key !in a
    ensures Remove(a + b, key) == a + Remove(b, key)
  {
    if a == [] {
      assert a + b == b;
    } else {
      RemoveRight(a[1..], b, key);
      assert (a + b)[1..] == a[1..] + b;
      Associates([a[0]], a[1..], Remove(b, key));
      assert a == [a[0]] + a[1..];
    }
  }

  lemma {:induction false} RemoveLeft(a: seq<string>, b: seq<string>, key: string)
    requires key !in b
    ensures Remove(a + b, key) == Remove(a, key) + b
  {
    if a == [] {
      assert a + b == b;
      RemoveAbsent(b, key);
    } else {
      assert (a + b)[1..] == a[1..] + b;
      RemoveLeft(a[1..], b, key);
    }
  }

  lemma {:induction false} RemoveAbsent(keys: seq<string>, key: string)
    requires key !in keys
    ensures Remove(keys, key) == keys
  {
    if keys != [] {
      RemoveAbsent(keys[1..], key);
    }
  }

  lemma {:induction false} RemovePresent(keys: seq<string>, key: string)
    requires key in keys
    ensures |Remove(keys, key)| == |keys| - 1
  {
    if keys[0] != key {
      RemovePresent(keys[1..], key);
    }
  }

  lemma {:induction false} DistinctParts(a: seq<string>, b: seq<string>, key: string)
    requires Distinct(a + b) && key in b
    ensures key !in a
  {
    if a != [] {
      assert (a + b)[1..] == a[1..] + b;
      DistinctParts(a[1..], b, key);
    }
  }

  lemma LastKeysOfConcat(a: seq<string>, b: seq<string>, capacity: nat)
    requires a == [] || |b| >= capacity
    ensures LastKeys(a + b, capacity) == LastKeys(b, capacity)
  {
  }

  lemma PresentMovesToEnd(older: seq<string>, kept: seq<string>, capacity: nat, key: string)
    requires key in kept && key !in older && |kept| <= capacity && (older == [] || |kept| == capacity)
    ensures LastKeys(Remove(older + kept, key) + [key], capacity) == Remove(kept, key) + [key]
  {
    RemoveRight(older, kept, key);
    RemovePresent(kept, key);
    Associates(older, Remove(kept, key), [key]);
    LastKeysOfConcat(older, Remove(kept, key) + [key], capacity);
  }

  lemma AbsentPushesOut(older: seq<string>, kept: seq<string>, capacity: nat, key: string)
    requires key !in kept && (older == [] || |kept| == capacity)
    ensures LastKeys(Remove(older + kept, key) + [key], capacity) == LastKeys(kept + [key], capacity)
  {
    RemoveLeft(older, kept, key);
    Associates(Remove(older, key), kept, [key]);
    LastKeysOfConcat(Remove(older, key), kept + [key], capacity);
  }

  lemma Associates(a: seq<string>, b: seq<string>, c: seq<string>)
    ensures a + b + c == a + (b + c)
  {
  }

  lemma LastKeysSplit(keys: seq<string>, capacity: nat) returns (older: seq<string>)
    ensures keys == older + LastKeys(keys, capacity)
    ensures |LastKeys(keys, capacity)| <= capacity && (older == [] || |LastKeys(keys, capacity)| == capacity)
  {
    older := keys[..|keys| - |LastKeys(keys, capacity)|];
  }

  /** One use moves the key to the end of the last `capacity` keys, or pushes their first out. */
  lemma LastKeysStep(keys: seq<string>, capacity: nat, key: string)
    requires Distinct(keys)
    ensures var kept := LastKeys(keys, capacity);
            key in kept ==> LastKeys(Remove(keys, key) + [key], capacity) == Remove(kept, key) + [key]
    ensures var kept := LastKeys(keys, capacity);
            key !in kept ==> LastKeys(Remove(keys, key) + [key], capacity) == LastKeys(kept + [key], capacity)
  {
    var older := LastKeysSplit(keys, capacity);
    if key in LastKeys(keys, capacity) {
      DistinctParts(older, LastKeys(keys, capacity), key);
      PresentMovesToEnd(older, LastKeys(keys, capacity), capacity, key);
    } else {
      AbsentPushesOut(older, LastKeys(keys, capacity), capacity, key);
    }
  }

  /** `Delete` in the map is `Remove` on its keys. */
  lemma KeysOfDelete(entries: seq<Entry>, key: string)
    requires Has(entries, key)
    ensures Keys(Delete(entries, key)) == Remove(Keys(entries), key)
  {
    var p := IndexOf(entries, key);
    var before, from := Keys(entries[..p]), Keys(entries[p..]);
    assert Keys(entries) == before + from;
    RemoveRight(before, from, key);
    assert Keys(Delete(entries, key)) == before + from[1..];
  }

  lemma KeysOfHit(entries: seq<Entry>, capacity: nat, key: string, started: nat)
    requires capacity > 0 && Has(entries, key)
    ensures key in Keys(entries)
    ensures Keys(AfterGet(entries, capacity, key, started)) == Remove(Keys(entries), key) + [key]
  {
    var p := IndexOf(entries, key);
    assert Keys(entries)[p] == key;
    KeysOfDelete(entries, key);
    assert Keys(Delete(entries, key) + [entries[p]]) == Keys(Delete(entries, key)) + [key];
  }

  lemma KeysOfMiss(entries: seq<Entry>, capacity: nat, key: string, started: nat)
    requires capacity > 0 && !Has(entries, key)
    ensures key !in Keys(entries)
    ensures Keys(AfterGet(entries, capacity, key, started)) == LastKeys(Keys(entries) + [key], capacity)
  {
    assert Keys(entries + [Entry(key, started)]) == Keys(entries) + [key];
  }

  predicate NothingThrew(s: State) {
    forall l :: 0 <= l < |s.loads| ==> s.loads[l].outcome != Some(Threw)
  }

  /** As long as no load fails, the cache holds exactly the `capacity` most recently used keys, in that order. */
  lemma {:induction false} HoldsMostRecentKeys(capacity: nat, events: seq<Event>)
    requires Run(capacity, events).Some? && NothingThrew(Run(capacity, events).value)
    ensures var s := Run(capacity, events).value;
            Keys(s.entries) == LastKeys(Recency(s.uses), capacity)
  {
    if events != [] {
      var front, e := events[..|events| - 1], events[|events| - 1];
      var before := Run(capacity, front).value;
      EarlierNothingThrew(capacity, before, e);
      HoldsMostRecentKeys(capacity, front);
      if e.Get? {
        UseStep(capacity, before, e.key);
      } else if e.Resume? {
        CacheInvariant(capacity, front);
        assert LoadOf(before, before.waiting[e.caller].load, before.waiting[e.caller].key);
      }
    }
  }

  /** A call for a key that the cache holds joins the load there is; any other starts exactly one load of its own. */
  lemma GetJoinsOrStarts(capacity: nat, s: State, key: string)
    ensures var s' := StepGet(capacity, s, key);
            if capacity > 0 && exists entry :: entry in s.entries && entry.key == key then
              && s'.loads == s.loads
              && exists entry :: entry in s.entries && entry.key == key
                                 && s'.waiting == s.waiting + [Caller(key, entry.load, false)]
            else
              && s'.loads == s.loads + [Load(key, None)]
              && s'.waiting == s.waiting + [Caller(key, |s.loads|, capacity > 0)]
  {
    var i := IndexOf(s.entries, key);
    if i < |s.entries| {
      assert s.entries[i] in s.entries;
    }
  }

  lemma KeysHave(entries: seq<Entry>, key: string)
    ensures key in Keys(entries) <==> Has(entries, key)
  {
    var i := IndexOf(entries, key);
    if i < |entries| {
      assert Keys(entries)[i] == key;
    }
  }

  /** As long as no load fails, a call starts a load exactly for a key that is not among the most recently used. */
  lemma LoadsExactlyWhen(capacity: nat, events: seq<Event>, key: string)
    requires Run(capacity, events).Some? && NothingThrew(Run(capacity, events).value)
    ensures var s := Run(capacity, events).value;
            |Step(capacity, s, Get(key)).loads| == |s.loads| + 1 <==> key !in LastKeys(Recency(s.uses), capacity)
    ensures var s := Run(capacity, events).value;
            |Step(capacity, s, Get(key)).loads| == |s.loads| <==> key in LastKeys(Recency(s.uses), capacity)
  {
    var s := Run(capacity, events).value;
    HoldsMostRecentKeys(capacity, events);
    KeysHave(s.entries, key);
  }

  /** The keys of the calls that events make, of the callers that wait, and of the answers given. */
  function CallKeys(events: seq<Event>): multiset<string> {
    if events == [] then multiset{}
    else
      var last := events[|events| - 1];
      CallKeys(events[..|events| - 1]) + match last
                                         case Get(key) => multiset{key}
                                         case StartThrows(key) => multiset{key}
                                         case _ => multiset{}
  }

  function WaitingKeys(waiting: seq<Caller>): (keys: seq<string>)
    ensures |keys| == |waiting| && forall i :: 0 <= i < |waiting| ==> keys[i] == waiting[i].key
  {
    seq(|waiting|, i requires 0 <= i < |waiting| => waiting[i].key)
  }

  function AnswerKeys(answers: seq<Answer>): (keys: seq<string>)
    ensures |keys| == |answers| && forall i :: 0 <= i < |answers| ==> keys[i] == answers[i].key
  {
    seq(|answers|, i requires 0 <= i < |answers| => answers[i].key)
  }

  lemma ResumeMovesKey(s: State, caller: nat)
    requires caller < |s.waiting| && s.waiting[caller].load < |s.loads| && s.loads[s.waiting[caller].load].outcome.Some?
    ensures var s', key := StepResume(s, caller), s.waiting[caller].key;
            && multiset(WaitingKeys(s'.waiting)) + multiset{key} == multiset(WaitingKeys(s.waiting))
            && multiset(AnswerKeys(s'.answers)) == multiset(AnswerKeys(s.answers)) + multiset{key}
            && s'.answers[|s.answers|].outcome == s.loads[s.waiting[caller].load].outcome.value
  {
    var s', keys := StepResume(s, caller), WaitingKeys(s.waiting);
    assert keys == keys[..caller] + [keys[caller]] + keys[caller + 1..];
    assert WaitingKeys(s'.waiting) == keys[..caller] + keys[caller + 1..];
    assert AnswerKeys(s'.answers) == AnswerKeys(s.answers) + [keys[caller]];
  }

  /** Every call waits or has been answered, once: of each key as many calls were made as wait and are answered. */
  lemma {:induction false} EveryCallIsAnswered(capacity: nat, events: seq<Event>)
    requires Run(capacity, events).Some?
    ensures var s := Run(capacity, events).value;
            CallKeys(events) == multiset(WaitingKeys(s.waiting)) + multiset(AnswerKeys(s.answers))
  {
    if events != [] {
      var front, e := events[..|events| - 1], events[|events| - 1];
      var s, s' := Run(capacity, front).value, Run(capacity, events).value;
      EveryCallIsAnswered(capacity, front);
      match e
      case Get(key) => assert WaitingKeys(s'.waiting) == WaitingKeys(s.waiting) + [key];
      case Settle(load, outcome) =>
      case Resume(caller) => ResumeMovesKey(s, caller);
      case StartThrows(key) => assert AnswerKeys(s'.answers) == AnswerKeys(s.answers) + [key];
    }
  }

  lemma EarlierNothingThrew(capacity: nat, before: State, e: Event)
    requires Enabled(capacity, before, e) && NothingThrew(Step(capacity, before, e))
    ensures NothingThrew(before)
  {
    var after := Step(capacity, before, e);
    assert forall l :: 0 <= l < |before.loads| && before.loads[l].outcome.Some? ==> after.loads[l] == before.loads[l];
  }

  lemma RecencyStep(uses: seq<string>, key: string)
    ensures Recency(uses + [key]) == Remove(Recency(uses), key) + [key]
  {
    assert (uses + [key])[..|uses|] == uses;
  }

  lemma UseStep(capacity: nat, before: State, key: string)
    requires Keys(before.entries) == LastKeys(Recency(before.uses), capacity)
    ensures var after := StepGet(capacity, before, key);
            Keys(after.entries) == LastKeys(Recency(after.uses), capacity)
  {
    RecencyStep(before.uses, key);
    if capacity > 0 {
      RecencyIsDistinct(before.uses);
      LastKeysStep(Recency(before.uses), capacity, key);
      if Has(before.entries, key) {
        KeysOfHit(before.entries, capacity, key, |before.loads|);
      } else {
        KeysOfMiss(before.entries, capacity, key, |before.loads|);
      }
    }
  }
}
