/** What the progress bar knows after the events it has drained (internal/cli/statusbar.go, 132-158). */
module ProgressBar {
  import opened Text

  datatype Status = Pending | Ready | Failed

  datatype Event = Event(id: string, name: string, status: Status, observedAt: int)

  predicate Final(status: Status) {
    status != Pending
  }

  // ---------- what a history of events says ----------

  ghost predicate Mentions(history: seq<Event>, id: string) {
    exists k :: 0 <= k < |history| && history[k].id == id
  }

  /** The last final status, if any. */
  ghost function LastFinal(history: seq<Event>, id: string): Option<Status> {
    if history == [] then None
    else
      var e := history[|history| - 1];
      if e.id == id && Final(e.status) then Some(e.status) else LastFinal(history[..|history| - 1], id)
  }

  /** How often a resource came to a final status it was not already in. */
  ghost function Flips(history: seq<Event>): nat {
    if history == [] then 0
    else
      var before, e := history[..|history| - 1], history[|history| - 1];
      Flips(before) + (if Final(e.status) && LastFinal(before, e.id) != Some(e.status) then 1 else 0)
  }

  ghost predicate Earliest(history: seq<Event>, id: string, t: int) {
    && (exists k :: 0 <= k < |history| && history[k].id == id && history[k].observedAt == t)
    && (forall k | 0 <= k < |history| && history[k].id == id :: t <= history[k].observedAt)
  }

  /** The first event of the resource is pending, and none is final. */
  ghost predicate InFlight(history: seq<Event>, id: string) {
    && LastFinal(history, id) == None
    && exists k :: 0 <= k < |history| && history[k].id == id && history[k].status == Pending &&
                   forall j | 0 <= j < k :: history[j].id != id
  }

  ghost predicate LastName(history: seq<Event>, id: string, name: string) {
    exists k :: 0 <= k < |history| && history[k].id == id && history[k].name == name &&
                forall j | k < j < |history| :: history[j].id != id
  }

  lemma OneMore(history: seq<Event>, e: Event)
    ensures forall id :: Mentions(history + [e], id) <==> id == e.id || Mentions(history, id)
    ensures forall id :: LastFinal(history + [e], id) ==
                         if e.id == id && Final(e.status) then Some(e.status) else LastFinal(history, id)
    ensures Flips(history + [e]) ==
            Flips(history) + (if Final(e.status) && LastFinal(history, e.id) != Some(e.status) then 1 else 0)
  {
    var after := history + [e];
    assert after[..|after| - 1] == history;
    forall id ensures Mentions(after, id) <==> id == e.id || Mentions(history, id) {
      if Mentions(history, id) {
        var k :| 0 <= k < |history| && history[k].id == id;
        assert after[k].id == id;
      }
      if id == e.id { assert after[|history|].id == id; }
    }
  }

  lemma TimesOneMore(history: seq<Event>, e: Event)
    ensures forall id, t :: id != e.id ==> (Earliest(history + [e], id, t) <==> Earliest(history, id, t))
    ensures !Mentions(history, e.id) ==> Earliest(history + [e], e.id, e.observedAt)
    ensures forall t :: Earliest(history, e.id, t) ==>
                        Earliest(history + [e], e.id, if e.observedAt < t then e.observedAt else t)
  {
    hide Earliest, Mentions;
    forall id, t ensures id != e.id ==> (Earliest(history + [e], id, t) <==> Earliest(history, id, t)) {
      EarliestOneMore(history, e, id, t);
    }
    EarliestOneMore(history, e, e.id, 0);
    forall t
      ensures Earliest(history, e.id, t) ==> Earliest(history + [e], e.id, if e.observedAt < t then e.observedAt else t)
    {
      EarliestOneMore(history, e, e.id, t);
    }
  }

  lemma FlightsOneMore(history: seq<Event>, e: Event)
    ensures forall id :: InFlight(history + [e], id) <==>
                         if id != e.id then InFlight(history, id)
                         else if Mentions(history, id) then InFlight(history, id) && !Final(e.status)
                         else e.status == Pending && LastFinal(history, id) == None
    ensures forall id :: InFlight(history, id) ==> LastFinal(history, id) == None
  {
    hide Mentions, LastFinal;
    forall id
      ensures InFlight(history + [e], id) <==>
              if id != e.id then InFlight(history, id)
              else if Mentions(history, id) then InFlight(history, id) && !Final(e.status)
              else e.status == Pending && LastFinal(history, id) == None
    {
      InFlightOneMore(history, e, id);
    }
  }

  lemma NamesOneMore(history: seq<Event>, e: Event)
    ensures LastName(history + [e], e.id, e.name)
    ensures forall id, name :: id != e.id && LastName(history, id, name) ==> LastName(history + [e], id, name)
  {
    hide LastName;
    LastNameOneMore(history, e, e.id, e.name);
    forall id, name | id != e.id && LastName(history, id, name) ensures LastName(history + [e], id, name) {
      LastNameOneMore(history, e, id, name);
    }
  }

  lemma EarliestOneMore(history: seq<Event>, e: Event, id: string, t: int)
    ensures id != e.id ==> (Earliest(history + [e], id, t) <==> Earliest(history, id, t))
    ensures !Mentions(history, e.id) ==> Earliest(history + [e], e.id, e.observedAt)
    ensures Earliest(history, e.id, t) ==> Earliest(history + [e], e.id, if e.observedAt < t then e.observedAt else t)
  {
    var after := history + [e];
    assert forall k | 0 <= k < |history| :: after[k] == history[k];
    assert after[|history|] == e;
    if k :| 0 <= k < |history| && history[k].id == id && history[k].observedAt == t {
      assert after[k].observedAt == t;
    }
    if k :| 0 <= k < |history| && history[k].id == e.id && history[k].observedAt == t {
      assert after[k].observedAt == t;
    }
  }

  lemma InFlightOneMore(history: seq<Event>, e: Event, id: string)
    ensures InFlight(history + [e], id) <==>
            if id != e.id then InFlight(history, id)
            else if Mentions(history, id) then InFlight(history, id) && !Final(e.status)
            else e.status == Pending && LastFinal(history, id) == None
  {
    hide LastFinal;
    OneMore(history, e);
    var after := history + [e];
    assert forall k | 0 <= k < |history| :: after[k] == history[k];
    assert after[|history|] == e;
    if InFlight(history, id) {
      var k :| 0 <= k < |history| && history[k].id == id && history[k].status == Pending &&
               forall j | 0 <= j < k :: history[j].id != id;
      assert after[k].id == id && after[k].status == Pending;
    }
  }

  lemma {:induction false} NoFinal(history: seq<Event>, id: string)
    requires !Mentions(history, id)
    ensures LastFinal(history, id) == None
  {
    if history != [] {
      var before := history[..|history| - 1];
      assert history[|history| - 1].id != id;
      forall k | 0 <= k < |before| ensures before[k].id != id { assert history[k].id != id; }
      NoFinal(before, id);
    }
  }

  lemma LastNameOneMore(history: seq<Event>, e: Event, id: string, name: string)
    ensures LastName(history + [e], e.id, e.name)
    ensures id != e.id && LastName(history, id, name) ==> LastName(history + [e], id, name)
  {
    var after := history + [e];
    assert forall k | 0 <= k < |history| :: after[k] == history[k];
    assert after[|history|] == e;
    if id != e.id && LastName(history, id, name) {
      var k :| 0 <= k < |history| && history[k].id == id && history[k].name == name &&
               forall j | k < j < |history| :: history[j].id != id;
      assert after[k].id == id && after[k].name == name;
    }
  }

  ghost predicate Sightings(history: seq<Event>, labels: map<string, string>, first: map<string, int>, total: nat) {
    && (forall id :: id in first <==> Mentions(history, id))
    && (forall id :: id in labels <==> Mentions(history, id))
    && (forall id | id in first :: Earliest(history, id, first[id]))
    && (forall id | id in labels :: LastName(history, id, labels[id]))
    && total == |first|
  }

  ghost predicate Statuses(history: seq<Event>, inflight: set<string>, printed: map<string, Status>, done: nat) {
    && (forall id :: id in inflight <==> InFlight(history, id))
    && (forall id :: (if id in printed then Some(printed[id]) else None) == LastFinal(history, id))
    && done == Flips(history)
  }

  lemma Sighted(history: seq<Event>, e: Event, labels: map<string, string>, first: map<string, int>, total: nat)
    requires Sightings(history, labels, first, total)
    ensures e.id in first <==> Mentions(history, e.id)
    ensures Sightings(history + [e], labels[e.id := e.name],
                      if e.id !in first || e.observedAt < first[e.id] then first[e.id := e.observedAt] else first,
                      if e.id !in first then total + 1 else total)
  {
    hide Mentions, LastFinal, Flips, Earliest, InFlight, LastName;
    OneMore(history, e);
    TimesOneMore(history, e);
    NamesOneMore(history, e);
  }

  lemma Judged(history: seq<Event>, e: Event, inflight: set<string>, printed: map<string, Status>, done: nat)
    requires Statuses(history, inflight, printed, done)
    ensures var flying := if !Mentions(history, e.id) && e.status == Pending then inflight + {e.id} else inflight;
            if !Final(e.status) || (e.id in printed && printed[e.id] == e.status) then
              Statuses(history + [e], flying, printed, done)
            else
              Statuses(history + [e], flying - {e.id}, printed[e.id := e.status], done + 1)
  {
    hide Mentions, LastFinal, Flips, InFlight;
    OneMore(history, e);
    FlightsOneMore(history, e);
    if !Mentions(history, e.id) {
      NoFinal(history, e.id);
    }
    assert (if e.id in printed then Some(printed[e.id]) else None) == LastFinal(history, e.id);
  }

  /** The bar shows what the history says. */
  ghost predicate Shows(bar: Bar, history: seq<Event>)
    reads bar
  {
    && Sightings(history, bar.labels, bar.first, bar.total)
    && Statuses(history, bar.inflight, bar.printed, bar.done)
  }

  class Bar {
    var labels: map<string, string>
    var first: map<string, int>
    var inflight: set<string>
    var printed: map<string, Status>
    var done: nat
    var total: nat

    constructor ()
      ensures Shows(this, [])
    {
      labels, first, inflight, printed, done, total := map[], map[], {}, map[], 0, 0;
    }

    /** One event of the drain: its label, then its status. */
    method Track(e: Event, ghost history: seq<Event>)
      requires Shows(this, history)
      modifies this
      ensures Shows(this, history + [e])
    {
      hide Sightings, Statuses, Mentions;
      Sighted(history, e, labels, first, total);
      Judged(history, e, inflight, printed, done);
      labels := labels[e.id := e.name];
      if e.id !in first {
        first := first[e.id := e.observedAt];
        total := total + 1;
        if e.status == Pending {
          inflight := inflight + {e.id};
        }
      } else if e.observedAt < first[e.id] {
        first := first[e.id := e.observedAt];
      }
      if e.status != Ready && e.status != Failed {
        return;
      }
      if e.id in printed && printed[e.id] == e.status {
        return;
      }
      printed := printed[e.id := e.status];
      inflight := inflight - {e.id};
      done := done + 1;
    }

    /** However the events come in batches, the bar shows what their whole history says. */
    method DrainEvents(batch: seq<Event>, ghost history: seq<Event>)
      requires Shows(this, history)
      modifies this
      ensures Shows(this, history + batch)
    {
      hide Shows;
      assert history + batch[..0] == history;
      for i := 0 to |batch|
        invariant Shows(this, history + batch[..i])
      {
        assert history + batch[..i + 1] == history + batch[..i] + [batch[i]];
        Track(batch[i], history + batch[..i]);
      }
      assert batch[..|batch|] == batch;
    }
  }
}
