/** Incremental synchronization of a source: a full listing is compared with a cursor of what was imported, every item
    yields an event, and the cursor takes in the events whose plans are applied, while the listing is still read. */
module ConnectorSync {
  import opened Common

  /** What the cursor remembers of an item. */
  datatype Entry = Entry(checksum: string, deleted: bool)

  type Items = map<string, Entry>

  /** An item of the listing, with the checksum the listing gives, if any. */
  datatype Ref = Ref(id: string, checksum: Option<string>)

  datatype Mode = Full | Incremental

  datatype Kind = Created | Updated | Unchanged | Deleted

  datatype Event = Event(kind: Kind, id: string, checksum: string)

  /** A source during a run: its listing, and the checksum of the document that a fetch returns. */
  datatype Source = Source(listing: seq<Ref>, document: string -> string)

  /** How a run goes besides: whether the plan of an event gets applied, within its retries, and the order in which the
      entries of a cursor are enumerated. */
  datatype Environment = Environment(applies: Event -> bool, entries: Items -> seq<string>)

  ghost predicate Enumerates(entries: Items -> seq<string>) {
    forall m: Items :: EnumeratesOnce(entries(m), m)
  }

  ghost predicate EnumeratesOnce(keys: seq<string>, items: Items) {
    && (forall i, j :: 0 <= i < j < |keys| ==> keys[i] != keys[j])
    && (forall id :: id in keys <==> id in items)
  }

  /** The shortcut without a fetch: the listing repeats the checksum of the cursor; an empty one does not count. */
  predicate Shortcut(mode: Mode, prior: Option<Entry>, ref: Ref) {
    mode == Incremental && prior.Some? && ref.checksum.Some? && ref.checksum.value != ""
        && prior.value.checksum == ref.checksum.value
  }

  /** The event of an item that is fetched. */
  function Fetched(prior: Option<Entry>, id: string, checksum: string): Event {
    Event(if prior.None? then Created else if prior.value.checksum == checksum then Unchanged else Updated,
          id, checksum)
  }

  function ListedEvent(mode: Mode, source: Source, prior: Option<Entry>, ref: Ref): Event {
    if Shortcut(mode, prior, ref) then Event(Unchanged, ref.id, prior.value.checksum)
    else Fetched(prior, ref.id, source.document(ref.id))
  }

  /** What the cursor becomes with an event: an unchanged item and one whose plan fails leave it alone. */
  function Fold(env: Environment, items: Items, e: Event): Items {
    if e.kind == Unchanged || !env.applies(e) then items
    else items[e.id := Entry(e.checksum, e.kind == Deleted)]
  }

  datatype State = State(items: Items, events: seq<Event>)

  function Emit(env: Environment, s: State, e: Event): State { State(Fold(env, s.items, e), s.events + [e]) }

  /** The state after the first `n` items of the listing. */
  function Listed(env: Environment, mode: Mode, source: Source, start: Items, n: nat): State
    requires n <= |source.listing|
  {
    if n == 0 then State(start, [])
    else
      var s, ref := Listed(env, mode, source, start, n - 1), source.listing[n - 1];
      Emit(env, s, ListedEvent(mode, source, Lookup(s.items, ref.id), ref))
  }

  predicate IsListed(source: Source, id: string) { exists i :: 0 <= i < |source.listing| && source.listing[i].id == id }

  /** The state after the first `n` entries that the cursor had behind the listing: what is not listed is deleted. */
  function Swept(env: Environment, source: Source, s: State, keys: seq<string>, items: Items, n: nat): State
    requires n <= |keys| && forall k :: k in keys ==> k in items
  {
    if n == 0 then s
    else
      var prior, id := Swept(env, source, s, keys, items, n - 1), keys[n - 1];
      if IsListed(source, id) || items[id].deleted then prior
      else Emit(env, prior, Event(Deleted, id, items[id].checksum))
  }

  /** A whole run from the cursor it is given. */
  function Run(env: Environment, mode: Mode, source: Source, start: Items): State
    requires EnumeratesOnce(env.entries(Listed(env, mode, source, start, |source.listing|).items),
                            Listed(env, mode, source, start, |source.listing|).items)
  {
    var s := Listed(env, mode, source, start, |source.listing|);
    if mode == Full then s
    else Swept(env, source, s, env.entries(s.items), s.items, |env.entries(s.items)|)
  }

  class Connector {
    var cursor: Items

    constructor ()
      ensures cursor == map[]
    {
      cursor := map[];
    }

    /** `sync_connector`: a full run starts from an empty cursor, which takes the place of the stored one with the first
        plan that is applied. */
    method Sync(env: Environment, mode: Mode, source: Source) returns (events: seq<Event>)
      requires Enumerates(env.entries)
      modifies this
      ensures var s := Run(env, mode, source, if mode == Full then map[] else old(cursor));
              events == s.events && cursor == if Imports(env, events) then s.items else old(cursor)
    {
      ghost var start: Items := if mode == Full then map[] else cursor;
      var items: Items := if mode == Full then map[] else cursor;
      events := [];
      var seen: set<string> := {};
      for i := 0 to |source.listing|
        invariant State(items, events) == Listed(env, mode, source, start, i)
        invariant Stores(env, old(cursor), items, events, cursor) && Sees(source, seen, i)
      {
        var ref := source.listing[i];
        SeesNext(source, seen, i);
        seen := seen + {ref.id};
        var e := ListedEvent(mode, source, Lookup(items, ref.id), ref);
        items := Take(env, items, events, e);
        events := events + [e];
      }
      if mode == Incremental {
        var keys, snapshot := env.entries(items), items;
        assert EnumeratesOnce(keys, snapshot);
        ghost var listed := State(items, events);
        SeesListed(source, seen);
        for i := 0 to |keys|
          invariant State(items, events) == Swept(env, source, listed, keys, snapshot, i)
          invariant Stores(env, old(cursor), items, events, cursor)
        {
          var prior := snapshot[keys[i]];
          if keys[i] in seen || prior.deleted {
            continue;
          }
          var e := Event(Deleted, keys[i], prior.checksum);
          items := Take(env, items, events, e);
          events := events + [e];
        }
      }
    }

    /** Applies the plan of an event, unless it is unchanged, and stores the cursor if that succeeds. */
    method Take(env: Environment, items: Items, ghost events: seq<Event>, e: Event) returns (items': Items)
      requires Imports(env, events) ==> cursor == items
      modifies this
      ensures items' == Fold(env, items, e)
      ensures Stores(env, old(cursor), items', events + [e], cursor)
    {
      ghost var more := events + [e];
      assert e in more && forall f :: f in more <==> f in events || f == e;
      items' := items;
      if e.kind != Unchanged && env.applies(e) {
        items' := items[e.id := Entry(e.checksum, e.kind == Deleted)];
        cursor := items';
      }
    }
  }

  /** The cursor stored is the working one once a plan was applied, and the old one until then. */
  ghost predicate Stores(env: Environment, before: Items, items: Items, events: seq<Event>, cursor: Items) {
    (Imports(env, events) ==> cursor == items) && (!Imports(env, events) ==> cursor == before)
  }

  /** The ids seen are those of the first `n` items of the listing. */
  ghost predicate Sees(source: Source, seen: set<string>, n: nat)
    requires n <= |source.listing|
  {
    forall id :: id in seen <==> exists j :: 0 <= j < n && source.listing[j].id == id
  }

  lemma SeesNext(source: Source, seen: set<string>, n: nat)
    requires n < |source.listing| && Sees(source, seen, n)
    ensures Sees(source, seen + {source.listing[n].id}, n + 1)
  {
  }

  lemma SeesListed(source: Source, seen: set<string>)
    requires Sees(source, seen, |source.listing|)
    ensures forall id :: id in seen <==> IsListed(source, id)
  {
  }

  /** Some plan was applied. */
  ghost predicate Imports(env: Environment, events: seq<Event>) { exists e :: e in events && Applied(env, e) }

  predicate Applied(env: Environment, e: Event) { e.kind != Unchanged && env.applies(e) }

  // ---------------------------------------------------------------- a run, item by item

  ghost predicate DistinctListing(source: Source) {
    forall i, j :: 0 <= i < j < |source.listing| ==> source.listing[i].id != source.listing[j].id
  }

  /** What becomes of one entry with an event of its item. */
  function FoldOne(env: Environment, prior: Option<Entry>, e: Event): Option<Entry> {
    if Applied(env, e) then Some(Entry(e.checksum, e.kind == Deleted)) else prior
  }

  ghost predicate Live(items: Items, id: string) { id in items && !items[id].deleted }

  ghost function RefOf(source: Source, id: string): (ref: Ref)
    requires IsListed(source, id)
    ensures ref.id == id && exists i :: 0 <= i < |source.listing| && source.listing[i] == ref
  {
    var i :| 0 <= i < |source.listing| && source.listing[i].id == id;
    source.listing[i]
  }

  lemma RefIsUnique(source: Source, i: nat)
    requires DistinctListing(source) && i < |source.listing|
    ensures IsListed(source, source.listing[i].id) && RefOf(source, source.listing[i].id) == source.listing[i]
  {
  }

  /** The entry that a run leaves for an item, from the entry it had. */
  ghost function EntryAfter(env: Environment, mode: Mode, source: Source, prior: Option<Entry>,
                            id: string): Option<Entry> {
    if IsListed(source, id) then FoldOne(env, prior, ListedEvent(mode, source, prior, RefOf(source, id)))
    else if mode == Incremental && prior.Some? && !prior.value.deleted then
      FoldOne(env, prior, Event(Deleted, id, prior.value.checksum))
    else prior
  }

  lemma {:induction false} ListedIds(env: Environment, mode: Mode, source: Source, start: Items, n: nat)
    requires n <= |source.listing|
    ensures |Listed(env, mode, source, start, n).events| == n
    ensures forall i :: 0 <= i < n ==> Listed(env, mode, source, start, n).events[i].id == source.listing[i].id
  {
    if n > 0 {
      ListedIds(env, mode, source, start, n - 1);
    }
  }

  lemma {:induction false} ListedFrame(env: Environment, mode: Mode, source: Source, start: Items, n: nat, id: string)
    requires n <= |source.listing| && forall i :: 0 <= i < n ==> source.listing[i].id != id
    ensures Lookup(Listed(env, mode, source, start, n).items, id) == Lookup(start, id)
  {
    if n > 0 {
      ListedFrame(env, mode, source, start, n - 1, id);
    }
  }

  lemma {:induction false} ListedEntry(env: Environment, mode: Mode, source: Source, start: Items, n: nat, i: nat)
    requires DistinctListing(source) && i < n <= |source.listing|
    ensures var ref := source.listing[i];
            Lookup(Listed(env, mode, source, start, n).items, ref.id)
            == FoldOne(env, Lookup(start, ref.id), ListedEvent(mode, source, Lookup(start, ref.id), ref))
  {
    if i < n - 1 {
      ListedEntry(env, mode, source, start, n - 1, i);
    } else {
      ListedFrame(env, mode, source, start, i, source.listing[i].id);
    }
  }

  lemma {:induction false} SweptIs(env: Environment, source: Source, s: State, keys: seq<string>, items: Items, n: nat,
                                   id: string)
    requires EnumeratesOnce(keys, items) && n <= |keys|
    ensures Lookup(Swept(env, source, s, keys, items, n).items, id)
         == if id in keys[..n] && !IsListed(source, id) && !items[id].deleted
            then FoldOne(env, Lookup(s.items, id), Event(Deleted, id, items[id].checksum)) else Lookup(s.items, id)
  {
    if n > 0 {
      SweptIs(env, source, s, keys, items, n - 1, id);
      assert keys[..n] == keys[..n - 1] + [keys[n - 1]];
      assert keys[n - 1] !in keys[..n - 1];
    }
  }

  ghost predicate Runnable(env: Environment, source: Source) { DistinctListing(source) && Enumerates(env.entries) }

  lemma RunIs(env: Environment, mode: Mode, source: Source, start: Items, id: string)
    requires Runnable(env, source) && (mode == Full ==> start == map[])
    ensures Lookup(Run(env, mode, source, start).items, id) == EntryAfter(env, mode, source, Lookup(start, id), id)
  {
    var s := Listed(env, mode, source, start, |source.listing|);
    if IsListed(source, id) {
      var i :| 0 <= i < |source.listing| && source.listing[i].id == id;
      RefIsUnique(source, i);
      ListedEntry(env, mode, source, start, |source.listing|, i);
    } else {
      ListedFrame(env, mode, source, start, |source.listing|, id);
    }
    if mode == Incremental {
      var keys := env.entries(s.items);
      assert EnumeratesOnce(keys, s.items) && keys[..|keys|] == keys;
      SweptIs(env, source, s, keys, s.items, |keys|, id);
    }
  }

  // ---------------------------------------------------------------- replay

  ghost predicate AllApply(env: Environment) { forall e :: env.applies(e) }

  /** The live entries are exactly the documents of the listing. */
  ghost predicate ExactAt(items: Items, source: Source, id: string) {
    if IsListed(source, id) then Lookup(items, id) == Some(Entry(source.document(id), false)) else !Live(items, id)
  }

  ghost predicate Exact(items: Items, source: Source) { forall id :: ExactAt(items, source, id) }

  /** A listed item that the cursor has as deleted with the very checksum it has again. */
  ghost predicate Relisted(start: Items, source: Source, id: string) {
    IsListed(source, id) && Lookup(start, id) == Some(Entry(source.document(id), true))
  }

  /** A listed item for which the run takes the shortcut although its document has another checksum by now. */
  ghost predicate StaleShortcut(start: Items, source: Source, id: string) {
    IsListed(source, id) && StaleRef(source, Lookup(start, id), RefOf(source, id))
  }

  predicate StaleRef(source: Source, prior: Option<Entry>, ref: Ref) {
    Shortcut(Incremental, prior, ref) && prior.value.checksum != source.document(ref.id)
  }

  /** Replaying the events of an incremental run into the cursor leaves exactly the documents of the listing live,
      unless, and only unless, some item was deleted before and is listed again with the checksum it had, or a shortcut
      is stale. */
  lemma ReplayIsExactExactlyWhen(env: Environment, source: Source, start: Items)
    requires Runnable(env, source) && AllApply(env)
    ensures Exact(Run(env, Incremental, source, start).items, source)
       <==> forall id :: !Relisted(start, source, id) && !StaleShortcut(start, source, id)
  {
    forall id
      ensures ExactAt(Run(env, Incremental, source, start).items, source, id)
         <==> !Relisted(start, source, id) && !StaleShortcut(start, source, id)
    {
      RunIs(env, Incremental, source, start, id);
    }
  }

  /** A full run is always exact, whatever the cursor was. */
  lemma FullRunIsExact(env: Environment, source: Source)
    requires Runnable(env, source) && AllApply(env)
    ensures Exact(Run(env, Full, source, map[]).items, source)
  {
    forall id
      ensures ExactAt(Run(env, Full, source, map[]).items, source, id)
    {
      RunIs(env, Full, source, map[], id);
    }
  }

  function OneItem(document: string): Source { Source([Ref("a", Some("c"))], id => document) }

  function OneEntry(deleted: bool): Items { map["a" := Entry("c", deleted)] }

  /** A source of one item, listed with the checksum the cursor has: the run takes the shortcut. */
  lemma OneShortcut(env: Environment, document: string, deleted: bool)
    requires Enumerates(env.entries)
    ensures Run(env, Incremental, OneItem(document), OneEntry(deleted))
         == State(OneEntry(deleted), [Event(Unchanged, "a", "c")])
  {
    var source, start := OneItem(document), OneEntry(deleted);
    assert source.listing[0].id == "a";
    assert Listed(env, Incremental, source, start, 0) == State(start, []);
    assert Listed(env, Incremental, source, start, 1) == State(start, [Event(Unchanged, "a", "c")]);
    var keys := env.entries(start);
    assert EnumeratesOnce(keys, start);
    NothingToSweep(env, source, State(start, [Event(Unchanged, "a", "c")]), keys, start, |keys|);
  }

  /** An item listed again with the checksum it was deleted with: the run calls it unchanged and leaves it deleted. */
  lemma RelistedStaysDeleted(env: Environment)
    requires Enumerates(env.entries)
    ensures Relisted(OneEntry(true), OneItem("c"), "a")
    ensures Run(env, Incremental, OneItem("c"), OneEntry(true)) == State(OneEntry(true), [Event(Unchanged, "a", "c")])
  {
    assert OneItem("c").listing[0].id == "a";
    OneShortcut(env, "c", true);
  }

  /** An item whose document has moved on from the checksum it is still listed with: the run calls it unchanged and
      keeps the old checksum. */
  lemma StaleShortcutKeepsOldChecksum(env: Environment)
    requires Enumerates(env.entries)
    ensures StaleShortcut(OneEntry(false), OneItem("d"), "a")
    ensures Run(env, Incremental, OneItem("d"), OneEntry(false)) == State(OneEntry(false), [Event(Unchanged, "a", "c")])
  {
    assert OneItem("d").listing[0].id == "a";
    OneShortcut(env, "d", false);
  }

  // ---------------------------------------------------------------- the next run

  /** Nothing is left to do: every listed item has the checksum of its document, or the one the listing repeats, and
      every other entry is deleted. */
  ghost predicate Settled(items: Items, source: Source) { forall id :: SettledAt(items, source, id) }

  ghost predicate SettledAt(items: Items, source: Source, id: string) {
    if IsListed(source, id) then
      id in items && (items[id].checksum == source.document(id)
                      || Shortcut(Incremental, Some(items[id]), RefOf(source, id)))
    else !Live(items, id)
  }

  lemma RunSettles(env: Environment, mode: Mode, source: Source, start: Items)
    requires Runnable(env, source) && AllApply(env) && (mode == Full ==> start == map[])
    ensures Settled(Run(env, mode, source, start).items, source)
  {
    forall id
      ensures SettledAt(Run(env, mode, source, start).items, source, id)
    {
      RunIs(env, mode, source, start, id);
    }
  }

  lemma {:induction false} NothingToSweep(env: Environment, source: Source, s: State, keys: seq<string>, items: Items,
                                          n: nat)
    requires EnumeratesOnce(keys, items) && n <= |keys|
    requires forall k :: k in keys ==> IsListed(source, k) || items[k].deleted
    ensures Swept(env, source, s, keys, items, n) == s
  {
    if n > 0 {
      NothingToSweep(env, source, s, keys, items, n - 1);
    }
  }

  /** The first `n` listed items are unchanged, with the checksums of the cursor. */
  ghost predicate Quiet(source: Source, items: Items, events: seq<Event>, n: nat)
    requires n <= |source.listing|
  {
    && |events| == n
    && forall i :: 0 <= i < n ==>
         source.listing[i].id in items
             && events[i] == Event(Unchanged, source.listing[i].id, items[source.listing[i].id].checksum)
  }

  lemma {:induction false} ListingIsQuiet(env: Environment, source: Source, start: Items, n: nat)
    requires DistinctListing(source) && Settled(start, source) && n <= |source.listing|
    ensures Listed(env, Incremental, source, start, n).items == start
    ensures Quiet(source, start, Listed(env, Incremental, source, start, n).events, n)
  {
    if n > 0 {
      ListingIsQuiet(env, source, start, n - 1);
      RefIsUnique(source, n - 1);
      assert SettledAt(start, source, source.listing[n - 1].id);
    }
  }

  /** A further incremental run calls every listed item unchanged, nothing else, and leaves the cursor as it is. */
  lemma SecondRunIsQuiet(env: Environment, env': Environment, mode: Mode, source: Source, start: Items)
    requires Runnable(env, source) && Runnable(env', source) && AllApply(env) && (mode == Full ==> start == map[])
    ensures var items := Run(env, mode, source, start).items;
            var second := Run(env', Incremental, source, items);
            second.items == items && Quiet(source, items, second.events, |source.listing|)
  {
    var items := Run(env, mode, source, start).items;
    RunSettles(env, mode, source, start);
    SettledRunIsQuiet(env', source, items);
  }

  lemma SettledRunIsQuiet(env: Environment, source: Source, items: Items)
    requires Runnable(env, source) && Settled(items, source)
    ensures var run := Run(env, Incremental, source, items);
            run.items == items && Quiet(source, items, run.events, |source.listing|)
  {
    ListingIsQuiet(env, source, items, |source.listing|);
    var keys := env.entries(items);
    assert EnumeratesOnce(keys, items);
    forall k | k in keys
      ensures IsListed(source, k) || items[k].deleted
    {
      assert SettledAt(items, source, k);
    }
    NothingToSweep(env, source, Listed(env, Incremental, source, items, |source.listing|), keys, items, |keys|);
  }

  // ---------------------------------------------------------------- plans that fail

  lemma EntryConverges(env: Environment, ok: Environment, source: Source, prior: Option<Entry>, id: string)
    requires AllApply(ok)
    ensures EntryAfter(ok, Incremental, source, EntryAfter(env, Incremental, source, prior, id), id)
         == EntryAfter(ok, Incremental, source, prior, id)
  {
  }

  /** Whatever plans fail in a run, a further run in which none does leaves the cursor that it would have left
      at once. */
  lemma RetryConverges(env: Environment, ok: Environment, source: Source, start: Items)
    requires Runnable(env, source) && Runnable(ok, source) && AllApply(ok)
    ensures Run(ok, Incremental, source, Run(env, Incremental, source, start).items).items
         == Run(ok, Incremental, source, start).items
  {
    var failed := Run(env, Incremental, source, start).items;
    var retried, once := Run(ok, Incremental, source, failed).items, Run(ok, Incremental, source, start).items;
    forall id
      ensures Lookup(retried, id) == Lookup(once, id)
    {
      RunIs(env, Incremental, source, start, id);
      RunIs(ok, Incremental, source, failed, id);
      RunIs(ok, Incremental, source, start, id);
      EntryConverges(env, ok, source, Lookup(start, id), id);
    }
    SameMaps(retried, once);
  }

  lemma SameMaps(a: Items, b: Items)
    requires forall id :: Lookup(a, id) == Lookup(b, id)
    ensures a == b
  {
    forall id
      ensures id in a <==> id in b
      ensures id in a ==> a[id] == b[id]
    {
      assert Lookup(a, id) == Lookup(b, id);
    }
  }

  // ---------------------------------------------------------------- the events

  /** The events are of different items, of exactly those that satisfy `wanted`. */
  ghost predicate OneEventPer(events: seq<Event>, wanted: string -> bool) {
    && (forall i, j :: 0 <= i < j < |events| ==> events[i].id != events[j].id)
    && (forall id :: HasEvent(events, id) <==> wanted(id))
  }

  ghost predicate HasEvent(events: seq<Event>, id: string) { exists i :: 0 <= i < |events| && events[i].id == id }

  predicate ToDelete(source: Source, items: Items, id: string) {
    !IsListed(source, id) && id in items && !items[id].deleted
  }

  lemma {:induction false} SweptEvents(env: Environment, source: Source, s: State, keys: seq<string>, items: Items,
                                       n: nat)
    requires EnumeratesOnce(keys, items) && n <= |keys| && OneEventPer(s.events, id => IsListed(source, id))
    ensures OneEventPer(Swept(env, source, s, keys, items, n).events,
                        id => IsListed(source, id) || (id in keys[..n] && ToDelete(source, items, id)))
  {
    if n > 0 {
      SweptEvents(env, source, s, keys, items, n - 1);
      var prior, key := Swept(env, source, s, keys, items, n - 1), keys[n - 1];
      assert keys[..n] == keys[..n - 1] + [key] && key !in keys[..n - 1];
      if ToDelete(source, items, key) {
        assert !HasEvent(prior.events, key);
        var events := prior.events + [Event(Deleted, key, items[key].checksum)];
        forall id
          ensures HasEvent(events, id) <==> HasEvent(prior.events, id) || id == key
        {
          assert events[|prior.events|].id == key;
          assert forall i :: 0 <= i < |prior.events| ==> events[i] == prior.events[i];
        }
      }
    }
  }

  lemma ListedEvents(env: Environment, source: Source, start: Items)
    requires DistinctListing(source)
    ensures OneEventPer(Listed(env, Incremental, source, start, |source.listing|).events, id => IsListed(source, id))
  {
    ListedIds(env, Incremental, source, start, |source.listing|);
  }

  /** An incremental run gives exactly one event to every item that is listed or live in the cursor, and none
      to others. */
  lemma OneEventPerItem(env: Environment, source: Source, start: Items)
    requires Runnable(env, source)
    ensures OneEventPer(Run(env, Incremental, source, start).events, id => IsListed(source, id) || Live(start, id))
  {
    var s := Listed(env, Incremental, source, start, |source.listing|);
    var keys := env.entries(s.items);
    assert EnumeratesOnce(keys, s.items) && keys[..|keys|] == keys;
    ListedEvents(env, source, start);
    SweptEvents(env, source, s, keys, s.items, |keys|);
    forall id
      ensures IsListed(source, id) || (id in keys && ToDelete(source, s.items, id))
         <==> IsListed(source, id) || Live(start, id)
    {
      if !IsListed(source, id) {
        ListedFrame(env, Incremental, source, start, |source.listing|, id);
      }
    }
  }

  // ---------------------------------------------------------------- what a full run forgets

  datatype Round = Round(env: Environment, mode: Mode, source: Source)

  ghost predicate AllRunnable(rounds: seq<Round>) {
    forall i :: 0 <= i < |rounds| ==> Runnable(rounds[i].env, rounds[i].source)
  }

  ghost predicate NoneLists(rounds: seq<Round>, id: string) {
    forall i :: 0 <= i < |rounds| ==> !IsListed(rounds[i].source, id)
  }

  /** A run of the connector whose cursor is `stored`: a full one starts from an empty cursor all the same. */
  ghost function RunRound(round: Round, stored: Items): State
    requires Runnable(round.env, round.source)
  {
    var start := if round.mode == Full then map[] else stored;
    var items := Listed(round.env, round.mode, round.source, start, |round.source.listing|).items;
    assert EnumeratesOnce(round.env.entries(items), items);
    Run(round.env, round.mode, round.source, start)
  }

  /** The cursor after the first `n` runs. */
  ghost function CursorAfter(stored: Items, rounds: seq<Round>, n: nat): Items
    requires n <= |rounds| && AllRunnable(rounds)
  {
    if n == 0 then stored else RunRound(rounds[n - 1], CursorAfter(stored, rounds, n - 1)).items
  }

  /** A run that does not list an item leaves it out, and is silent about it, if it is full or does not know it. */
  lemma UnlistedStaysOut(round: Round, stored: Items, id: string)
    requires Runnable(round.env, round.source) && !IsListed(round.source, id) && (round.mode == Full || id !in stored)
    ensures id !in RunRound(round, stored).items && !HasEvent(RunRound(round, stored).events, id)
  {
    if round.mode == Full {
      ListedIds(round.env, Full, round.source, map[], |round.source.listing|);
      RunIs(round.env, Full, round.source, map[], id);
    } else {
      RunIs(round.env, Incremental, round.source, stored, id);
      OneEventPerItem(round.env, round.source, stored);
    }
  }

  /** An item that is not listed any more when a full run replaces the cursor gets no event, neither in that run nor in
      any later one, full or incremental, as long as it stays unlisted: what was imported of it is never deleted. */
  lemma {:induction false} OrphanIsNeverDeleted(stored: Items, rounds: seq<Round>, n: nat, id: string)
    requires AllRunnable(rounds) && NoneLists(rounds, id) && n < |rounds| && rounds[0].mode == Full
    ensures !HasEvent(RunRound(rounds[n], CursorAfter(stored, rounds, n)).events, id)
    ensures id !in CursorAfter(stored, rounds, n + 1)
  {
    if n > 0 {
      OrphanIsNeverDeleted(stored, rounds, n - 1, id);
    }
    UnlistedStaysOut(rounds[n], CursorAfter(stored, rounds, n), id);
  }

  // ---------------------------------------------------------------- the shortcut

  /** The source with a listing that gives no checksums: every item is fetched. */
  function Unhinted(source: Source): (r: Source)
    ensures |r.listing| == |source.listing| && r.document == source.document
    ensures forall i :: 0 <= i < |source.listing| ==> r.listing[i] == Ref(source.listing[i].id, None)
  {
    Source(seq(|source.listing|, i requires 0 <= i < |source.listing| => Ref(source.listing[i].id, None)),
           source.document)
  }

  lemma UnhintedLists(source: Source, id: string)
    ensures IsListed(Unhinted(source), id) <==> IsListed(source, id)
    ensures IsListed(source, id) ==> RefOf(Unhinted(source), id) == Ref(id, None)
  {
    if IsListed(source, id) {
      var i :| 0 <= i < |source.listing| && source.listing[i].id == id;
      assert Unhinted(source).listing[i].id == id;
    }
    if IsListed(Unhinted(source), id) {
      var i :| 0 <= i < |source.listing| && Unhinted(source).listing[i].id == id;
      assert source.listing[i].id == id;
    }
  }

  /** A stale shortcut of which the update, had the item been fetched, would have been applied. */
  ghost predicate MissesUpdate(env: Environment, start: Items, source: Source, id: string) {
    StaleShortcut(start, source, id) && env.applies(Event(Updated, id, source.document(id)))
  }

  lemma EntryMisses(env: Environment, source: Source, start: Items, id: string)
    ensures EntryAfter(env, Incremental, source, Lookup(start, id), id)
         == EntryAfter(env, Incremental, Unhinted(source), Lookup(start, id), id)
       <==> !MissesUpdate(env, start, source, id)
  {
    UnhintedLists(source, id);
  }

  /** With the shortcut a run ends in the cursor that it ends in if it fetches everything, exactly when no stale
      shortcut misses an update. */
  lemma ShortcutKeepsCursorExactlyWhen(env: Environment, source: Source, start: Items)
    requires Runnable(env, source)
    ensures Run(env, Incremental, source, start).items == Run(env, Incremental, Unhinted(source), start).items
       <==> forall id :: !MissesUpdate(env, start, source, id)
  {
    var fast, slow := Run(env, Incremental, source, start).items, Run(env, Incremental, Unhinted(source), start).items;
    forall id
      ensures Lookup(fast, id) == Lookup(slow, id) <==> !MissesUpdate(env, start, source, id)
    {
      RunIs(env, Incremental, source, start, id);
      RunIs(env, Incremental, Unhinted(source), start, id);
      EntryMisses(env, source, start, id);
    }
    if forall id :: !MissesUpdate(env, start, source, id) {
      SameMaps(fast, slow);
    }
  }

  /** One item of the listing more: planned against its entry at the start, as no other one has the id. */
  lemma ListedNext(env: Environment, mode: Mode, source: Source, start: Items, n: nat)
    requires DistinctListing(source) && n < |source.listing|
    ensures Listed(env, mode, source, start, n + 1)
         == Emit(env, Listed(env, mode, source, start, n),
                 ListedEvent(mode, source, Lookup(start, source.listing[n].id), source.listing[n]))
  {
    ListedFrame(env, mode, source, start, n, source.listing[n].id);
  }

  lemma EmitAppends(env: Environment, s: State, event: Event)
    ensures Emit(env, s, event).events == s.events + [event]
  {
  }

  /** The first `n` events are those of the listing, each against its item's entry at the start. */
  ghost predicate EventsOfListing(events: seq<Event>, mode: Mode, source: Source, start: Items, n: nat)
    requires n <= |source.listing|
  {
    |events| == n && forall i :: 0 <= i < n ==> events[i] == EventAt(mode, source, start, i)
  }

  function EventAt(mode: Mode, source: Source, start: Items, i: nat): Event
    requires i < |source.listing|
  {
    ListedEvent(mode, source, Lookup(start, source.listing[i].id), source.listing[i])
  }

  lemma EventsNext(events: seq<Event>, mode: Mode, source: Source, start: Items, n: nat)
    requires n < |source.listing| && EventsOfListing(events, mode, source, start, n)
    ensures EventsOfListing(events + [EventAt(mode, source, start, n)], mode, source, start, n + 1)
  {
  }

  lemma {:induction false} ListedEventsAre(env: Environment, mode: Mode, source: Source, start: Items, n: nat)
    requires DistinctListing(source) && n <= |source.listing|
    ensures EventsOfListing(Listed(env, mode, source, start, n).events, mode, source, start, n)
  {
    if n > 0 {
      var prior := Listed(env, mode, source, start, n - 1);
      ListedEventsAre(env, mode, source, start, n - 1);
      ListedNext(env, mode, source, start, n - 1);
      EmitAppends(env, prior, EventAt(mode, source, start, n - 1));
      EventsNext(prior.events, mode, source, start, n - 1);
    }
  }

  lemma {:induction false} SweptExtends(env: Environment, source: Source, s: State, keys: seq<string>, items: Items,
                                        n: nat)
    requires n <= |keys| && forall k :: k in keys ==> k in items
    ensures s.events <= Swept(env, source, s, keys, items, n).events
  {
    if n > 0 {
      SweptExtends(env, source, s, keys, items, n - 1);
    }
  }

  lemma RunEventAt(env: Environment, source: Source, start: Items, i: nat)
    requires Runnable(env, source) && i < |source.listing|
    ensures var events := Run(env, Incremental, source, start).events;
            && i < |events|
            && events[i] == ListedEvent(Incremental, source, Lookup(start, source.listing[i].id), source.listing[i])
  {
    var s := Listed(env, Incremental, source, start, |source.listing|);
    var keys := env.entries(s.items);
    assert EnumeratesOnce(keys, s.items);
    ListedEventsAre(env, Incremental, source, start, |source.listing|);
    assert s.events[i] == EventAt(Incremental, source, start, i);
    SweptExtends(env, source, s, keys, s.items, |keys|);
  }

  /** The kind of an event of the listing, by what the cursor held of the item at the start. */
  ghost predicate KindIs(e: Event, ref: Ref, prior: Option<Entry>, checksum: string) {
    var same := prior.Some? && (prior.value.checksum == checksum
                                || (prior.value.checksum != "" && ref.checksum == Some(prior.value.checksum)));
    && e.id == ref.id && (e.kind == Created <==> prior.None?) && (e.kind == Unchanged <==> same)
    && (e.kind == Updated <==> prior.Some? && !same) && (e.kind != Unchanged ==> e.checksum == checksum)
  }

  lemma {:induction false} SweptKinds(env: Environment, source: Source, s: State, keys: seq<string>, items: Items,
                                      n: nat, i: nat)
    requires EnumeratesOnce(keys, items) && n <= |keys|
    requires |s.events| <= i < |Swept(env, source, s, keys, items, n).events|
    ensures var e := Swept(env, source, s, keys, items, n).events[i];
            e.kind == Deleted && !IsListed(source, e.id) && Live(items, e.id) && e.checksum == items[e.id].checksum
  {
    if i < |Swept(env, source, s, keys, items, n - 1).events| {
      SweptKinds(env, source, s, keys, items, n - 1, i);
    }
  }

  /** The first events of an incremental run are those of the listing, in its order: created where the cursor knew
      nothing, unchanged where it held the checksum of the document or the one that is listed, updated otherwise. All
      others are deletions of items that were live and are not listed. */
  lemma EventKindsAre(env: Environment, source: Source, start: Items, i: nat)
    requires Runnable(env, source) && i < |Run(env, Incremental, source, start).events|
    ensures var e := Run(env, Incremental, source, start).events[i];
            if i < |source.listing| then
              var ref := source.listing[i];
              KindIs(e, ref, Lookup(start, ref.id), source.document(ref.id))
            else
              e.kind == Deleted && !IsListed(source, e.id) && Live(start, e.id) && e.checksum == start[e.id].checksum
  {
    if i < |source.listing| {
      RunEventAt(env, source, start, i);
    } else {
      var s := Listed(env, Incremental, source, start, |source.listing|);
      var keys := env.entries(s.items);
      assert EnumeratesOnce(keys, s.items);
      ListedIds(env, Incremental, source, start, |source.listing|);
      SweptKinds(env, source, s, keys, s.items, |keys|, i);
      var id := Run(env, Incremental, source, start).events[i].id;
      ListedFrame(env, Incremental, source, start, |source.listing|, id);
    }
  }

  /** A full run calls every listed item created, with the checksum of its document, and nothing else. */
  lemma FullRunCreates(env: Environment, source: Source)
    requires Runnable(env, source)
    ensures var events := Run(env, Full, source, map[]).events;
            && |events| == |source.listing|
            && forall i :: 0 <= i < |events| ==>
                 events[i] == Event(Created, source.listing[i].id, source.document(source.listing[i].id))
  {
    ListedEventsAre(env, Full, source, map[], |source.listing|);
  }

  /** No shortcut of an incremental run is stale. */
  ghost predicate NoStaleShortcut(start: Items, source: Source) { forall id :: !StaleShortcut(start, source, id) }

  lemma FreshRefAgrees(source: Source, start: Items, i: nat)
    requires DistinctListing(source) && i < |source.listing| && NoStaleShortcut(start, source)
    ensures var ref, prior := source.listing[i], Lookup(start, source.listing[i].id);
            ListedEvent(Incremental, source, prior, ref)
                == ListedEvent(Incremental, Unhinted(source), prior, Ref(ref.id, None))
  {
    RefIsUnique(source, i);
    assert !StaleShortcut(start, source, source.listing[i].id);
  }

  lemma FreshNextAgrees(env: Environment, source: Source, start: Items, n: nat)
    requires DistinctListing(source) && n < |source.listing| && NoStaleShortcut(start, source)
    requires Listed(env, Incremental, source, start, n) == Listed(env, Incremental, Unhinted(source), start, n)
    ensures Listed(env, Incremental, source, start, n + 1) == Listed(env, Incremental, Unhinted(source), start, n + 1)
  {
    ListedNext(env, Incremental, source, start, n);
    ListedNext(env, Incremental, Unhinted(source), start, n);
    FreshRefAgrees(source, start, n);
  }

  lemma {:induction false} FreshListingAgrees(env: Environment, source: Source, start: Items, n: nat)
    requires DistinctListing(source) && n <= |source.listing| && NoStaleShortcut(start, source)
    ensures Listed(env, Incremental, source, start, n) == Listed(env, Incremental, Unhinted(source), start, n)
  {
    if n > 0 {
      FreshListingAgrees(env, source, start, n - 1);
      FreshNextAgrees(env, source, start, n - 1);
    }
  }

  lemma {:induction false} SweepAgrees(env: Environment, source: Source, s: State, keys: seq<string>, items: Items,
                                       n: nat)
    requires n <= |keys| && forall k :: k in keys ==> k in items
    ensures Swept(env, source, s, keys, items, n) == Swept(env, Unhinted(source), s, keys, items, n)
  {
    if n > 0 {
      SweepAgrees(env, source, s, keys, items, n - 1);
      UnhintedLists(source, keys[n - 1]);
    }
  }

  /** With the shortcut a run gives the very events and cursor that it gives if it fetches everything, exactly when no
      shortcut is stale. */
  lemma ShortcutKeepsRunExactlyWhen(env: Environment, source: Source, start: Items)
    requires Runnable(env, source)
    ensures Run(env, Incremental, source, start) == Run(env, Incremental, Unhinted(source), start)
       <==> NoStaleShortcut(start, source)
  {
    if NoStaleShortcut(start, source) {
      FreshListingAgrees(env, source, start, |source.listing|);
      var s := Listed(env, Incremental, source, start, |source.listing|);
      var keys := env.entries(s.items);
      assert EnumeratesOnce(keys, s.items);
      SweepAgrees(env, source, s, keys, s.items, |keys|);
    } else {
      var id :| StaleShortcut(start, source, id);
      var i :| 0 <= i < |source.listing| && source.listing[i] == RefOf(source, id);
      RunEventAt(env, source, start, i);
      RunEventAt(env, Unhinted(source), start, i);
    }
  }
}
