/** The single-flight inventory cache: reads under a mutex, discovery in the background. Each critical
    section is one step; between its start and its commit a refresh asks the base at any time. */
module InventoryCache {
  import opened WanEndpoints

  datatype Key = Key(vendor: string, product: string, openAt: string)

  /** A background refresh: asking, or with what the base answered. */
  datatype Flight = Asking(key: Key) | Answered(key: Key, modems: seq<Modem>)

  class CachedInventory {
    const ttl: nat                                   // milliseconds
    var initialized: bool
    var refreshing: bool
    var key: Key
    var modems: seq<Modem>
    var expiresAt: int
    var flights: seq<Flight>                         // background refreshes under way
    ghost var answers: set<(Key, seq<Modem>)>       // everything the base has produced
    ghost var committedAt: int

    /** After a `Prime` with no refresh under way. */
    ghost predicate Valid()
      reads this
    {
      && initialized && (key, modems) in answers && expiresAt == committedAt + ttl
      && |flights| == (if refreshing then 1 else 0)
      && forall f :: f in flights && f.Answered? ==> (f.key, f.modems) in answers
    }

    constructor (ttl: int)
      ensures !initialized && !refreshing && flights == [] && answers == {}
      ensures this.ttl == if ttl <= 0 then 15000 else ttl
    {
      this.ttl := if ttl <= 0 then 15000 else ttl;
      initialized, refreshing, key, modems, expiresAt := false, false, Key("", "", ""), [], 0;
      flights, answers, committedAt := [], {}, 0;
    }

    /** The critical section that ends `refresh`. */
    method Commit(key: Key, modems: seq<Modem>, now: int)
      modifies this`initialized, this`refreshing, this`key, this`modems, this`expiresAt, this`committedAt
      ensures initialized && !refreshing && this.key == key && this.modems == modems
      ensures committedAt == now && expiresAt == now + ttl
    {
      this.modems, this.key := modems, key;
      expiresAt, committedAt := now + ttl, now;
      initialized, refreshing := true, false;
    }

    /** `Prime`: the first discovery, in the caller. */
    method Prime(key: Key, found: seq<Modem>, now: int)
      modifies this
      ensures answers == old(answers) + {(key, found)} && flights == old(flights)
      ensures initialized && !refreshing && this.key == key && modems == found && committedAt == now
      ensures old(flights) == [] ==> Valid()
      // in a cache in use it must not be called while a refresh is under way
      ensures old(Valid()) ==> (Valid() <==> !old(refreshing))
    {
      answers := answers + {(key, found)};
      Commit(key, found, now);
    }

    predicate Stale(k: Key, now: int)
      reads this
    { !initialized || now > expiresAt || k != key }

    /** `ListModems`: `found` is what a discovery in the caller would find; `waited` says that there
        was one. */
    method ListModems(k: Key, now: int, found: seq<Modem>, later: int) returns (list: seq<Modem>, waited: bool)
      modifies this
      ensures waited <==> !old(initialized)
      ensures old(Valid()) ==> Valid() && key == old(key) && modems == old(modems) && answers == old(answers)
      // before `Prime`, the caller discovers and commits
      ensures !old(initialized) ==> list == found && initialized && key == k && modems == found && (k, found) in answers
      // the list is one the base produced for the recorded key
      ensures old(Valid()) ==> list == modems && (key, list) in answers
      // a list for the requested key, committed no longer than the time to live ago, starts nothing
      ensures old(Valid()) && k == old(key) && now - old(committedAt) <= ttl ==>
        flights == old(flights) && refreshing == old(refreshing)
      // any other read leaves exactly one refresh under way, started now for its key or running already
      ensures old(Valid()) && (k != old(key) || now - old(committedAt) > ttl) ==>
        refreshing && |flights| == 1 && flights == if old(refreshing) then old(flights) else [Asking(k)]
      ensures old(initialized) && old(Stale(k, now)) && !old(refreshing) ==> flights == old(flights) + [Asking(k)]
      ensures committedAt == if old(initialized) then old(committedAt) else later
    {
      var stale := Stale(k, now);
      if stale && initialized && !refreshing {
        refreshing := true;
        flights := flights + [Asking(k)];
      }
      if initialized {
        return modems, false;
      }
      Prime(k, found, later);
      list, waited := modems, true;
    }

    /** The base answers a refresh that is under way. */
    method Answer(i: nat, found: seq<Modem>)
      requires Valid() && i < |flights| && flights[i].Asking?
      modifies this`flights, this`answers
      ensures Valid() && flights == old(flights)[i := Answered(old(flights)[i].key, found)]
      ensures answers == old(answers) + {(old(flights)[i].key, found)}
    {
      answers := answers + {(flights[i].key, found)};
      flights := flights[i := Answered(flights[i].key, found)];
    }

    /** The refresh commits, and is over. */
    method Land(now: int, i: nat)
      requires Valid() && i < |flights| && flights[i].Answered?
      modifies this
      ensures Valid() && flights == [] && !refreshing
      ensures key == old(flights)[i].key && modems == old(flights)[i].modems
      ensures committedAt == now && answers == old(answers)
    {
      Commit(flights[i].key, flights[i].modems, now);
      flights := flights[..i] + flights[i + 1..];
    }
  }

  // ----- Whole runs -----

  /** Any interleaving of reads with the answer and the commit of the refresh under way. */
  datatype Step = Reads(key: Key, now: int) | Answers(found: seq<Modem>) | Lands(now: int)

  method Serve(c: CachedInventory, s: Step)
    requires c.Valid()
    modifies c
    ensures c.Valid()
  {
    match s {
      case Reads(k, now) =>
        var list, waited := c.ListModems(k, now, [], now);
        assert !waited && (c.key, list) in c.answers && (c.Stale(k, now) ==> |c.flights| == 1);
      case Answers(found) =>
        if |c.flights| == 1 && c.flights[0].Asking? {
          c.Answer(0, found);
        }
      case Lands(now) =>
        if |c.flights| == 1 && c.flights[0].Answered? {
          c.Land(now, 0);
        }
    }
  }

  /** After one `Prime`, whatever the interleaving: one refresh is under way exactly while the flag is
      set, no read waits, and a stale one leaves a refresh under way. */
  method Drive(ttl: int, key: Key, found: seq<Modem>, now: int, steps: seq<Step>) returns (c: CachedInventory)
    ensures fresh(c) && c.Valid()
  {
    c := new CachedInventory(ttl);
    c.Prime(key, found, now);
    for i := 0 to |steps|
      invariant fresh(c) && c.Valid()
    {
      Serve(c, steps[i]);
    }
  }

  /** A second `Prime` while a refresh is under way clears the flag over it; the next stale read then
      starts another. */
  method PrimedTwice(c: CachedInventory, k: Key, k': Key, k'': Key, found: seq<Modem>, now: int)
    requires c.Valid() && !c.refreshing && k != c.key && k'' != k'
    modifies c
    ensures |c.flights| == 2
  {
    var list, waited := c.ListModems(k, now, found, now);
    c.Prime(k', found, now);
    list, waited := c.ListModems(k'', now, found, now);
  }
}
