/**
 Requests against one stored value. Every request loads the value, computes on its own copy and then
 either saves the outcome or throws. Nothing locks the value between the two halves.
 */
module Interleaving {
  import opened Prelude

  /** What a request would save when it starts from a given value; None when it saves nothing. */
  type Server<!S, !R> = (S, R) -> Option<S>

  function Apply<S, R>(serve: Server<S, R>, s: S, r: R): S {
    serve(s, r).GetOr(s)
  }

  /** One request at a time. */
  function Serial<S, R>(serve: Server<S, R>, s: S, requests: seq<R>): S {
    if requests == [] then s
    else Apply(serve, Serial(serve, s, requests[..|requests| - 1]), requests[|requests| - 1])
  }

  lemma {:induction false} SerialAppend<S, R>(serve: Server<S, R>, s: S, a: seq<R>, b: seq<R>)
    ensures Serial(serve, s, a + b) == Serial(serve, Serial(serve, s, a), b)
  {
    if b == [] {
      assert a + b == a;
    } else {
      assert (a + b)[..|a + b| - 1] == a + b[..|b| - 1];
      SerialAppend(serve, s, a, b[..|b| - 1]);
    }
  }

  lemma {:induction false} SerialInvariant<S(!new), R(!new)>(serve: Server<S, R>, holds: S -> bool, s: S, requests: seq<R>)
    requires holds(s)
    requires forall v: S, r: R :: holds(v) ==> holds(Apply(serve, v, r))
    ensures holds(Serial(serve, s, requests))
  {
    if requests != [] {
      SerialInvariant(serve, holds, s, requests[..|requests| - 1]);
    }
  }

  // ---- Concurrent requests ----

  datatype InFlight<S, R> = InFlight(request: R, copy: S)

  /** `log` lists the requests that saved, in the order of their saves. */
  datatype System<S, R> = System(stored: S, inFlight: map<nat, InFlight<S, R>>, log: seq<R>)

  datatype Event<R> = Load(ticket: nat, request: R) | Save(ticket: nat)

  function Initial<S, R>(s: S): System<S, R> {
    System(s, map[], [])
  }

  function Advance<S, R>(serve: Server<S, R>, y: System<S, R>, e: Event<R>): System<S, R> {
    match e
    case Load(t, r) =>
      if t in y.inFlight then y else y.(inFlight := y.inFlight[t := InFlight(r, y.stored)])
    case Save(t) =>
      if t !in y.inFlight then y
      else
        var flight := y.inFlight[t];
        var rest := y.(inFlight := y.inFlight - {t});
        match serve(flight.copy, flight.request)
        case None => rest
        case Some(s) => rest.(stored := s, log := y.log + [flight.request])
  }

  function Interleave<S, R>(serve: Server<S, R>, y: System<S, R>, events: seq<Event<R>>): System<S, R> {
    if events == [] then y
    else Advance(serve, Interleave(serve, y, events[..|events| - 1]), events[|events| - 1])
  }

  ghost predicate Increasing(picks: seq<nat>, bound: nat) {
    && (forall i :: 0 <= i < |picks| ==> picks[i] < bound)
    && (forall i, j :: 0 <= i < j < |picks| ==> picks[i] < picks[j])
  }

  function Picked<R>(log: seq<R>, picks: seq<nat>): (requests: seq<R>)
    requires forall i :: 0 <= i < |picks| ==> picks[i] < |log|
    ensures |requests| == |picks|
    ensures forall i :: 0 <= i < |picks| ==> requests[i] == log[picks[i]]
  {
    seq(|picks|, i requires 0 <= i < |picks| => log[picks[i]])
  }

  ghost predicate ExplainedBy<S, R>(serve: Server<S, R>, s: S, log: seq<R>, picks: seq<nat>, value: S) {
    Increasing(picks, |log|) && value == Serial(serve, s, Picked(log, picks))
  }

  /** The value is what some of the saved requests, each used once and in the order of the saves, produce one at a time. */
  ghost predicate Explained<S, R>(serve: Server<S, R>, s: S, log: seq<R>, value: S) {
    exists picks: seq<nat> :: ExplainedBy(serve, s, log, picks, value)
  }

  lemma ExplainedGrows<S, R>(serve: Server<S, R>, s: S, log: seq<R>, value: S, r: R)
    requires Explained(serve, s, log, value)
    ensures Explained(serve, s, log + [r], value)
    ensures Explained(serve, s, log + [r], Apply(serve, value, r))
  {
    var picks: seq<nat> :| ExplainedBy(serve, s, log, picks, value);
    var log' := log + [r];
    assert Picked(log', picks) == Picked(log, picks);
    assert ExplainedBy(serve, s, log', picks, value);
    var more := picks + [|log|];
    assert Picked(log', more)[..|picks|] == Picked(log, picks);
    assert ExplainedBy(serve, s, log', more, Apply(serve, value, r));
  }

  ghost predicate AllExplained<S, R>(serve: Server<S, R>, s: S, y: System<S, R>) {
    && Explained(serve, s, y.log, y.stored)
    && forall t :: t in y.inFlight ==> Explained(serve, s, y.log, y.inFlight[t].copy)
  }

  lemma AdvanceExplained<S, R>(serve: Server<S, R>, s: S, y: System<S, R>, e: Event<R>)
    requires AllExplained(serve, s, y)
    ensures AllExplained(serve, s, Advance(serve, y, e))
  {
    if e.Save? && e.ticket in y.inFlight {
      var flight := y.inFlight[e.ticket];
      if serve(flight.copy, flight.request).Some? {
        ExplainedGrows(serve, s, y.log, flight.copy, flight.request);
        forall t | t in y.inFlight ensures Explained(serve, s, y.log + [flight.request], y.inFlight[t].copy) {
          ExplainedGrows(serve, s, y.log, y.inFlight[t].copy, flight.request);
        }
      }
    }
  }

  /**
   Whatever the interleaving, the stored value and every loaded copy are what a serial execution of distinct
   saved requests, in the order of their saves, produces: updates can be lost, none is invented.
   */
  lemma {:induction false} InterleavingRefinesSerial<S, R>(serve: Server<S, R>, s: S, events: seq<Event<R>>)
    ensures AllExplained(serve, s, Interleave(serve, Initial(s), events))
  {
    if events == [] {
      var none: seq<nat> := [];
      assert Picked<R>([], none) == [];
      assert ExplainedBy(serve, s, [], none, s);
    } else {
      InterleavingRefinesSerial(serve, s, events[..|events| - 1]);
      AdvanceExplained(serve, s, Interleave(serve, Initial(s), events[..|events| - 1]), events[|events| - 1]);
    }
  }

  /** Every property of a single value that serial requests keep holds under any interleaving. */
  lemma InvariantSurvives<S(!new), R(!new)>(serve: Server<S, R>, holds: S -> bool, s: S, events: seq<Event<R>>)
    requires holds(s)
    requires forall v: S, r: R :: holds(v) ==> holds(Apply(serve, v, r))
    ensures holds(Interleave(serve, Initial(s), events).stored)
  {
    InterleavingRefinesSerial(serve, s, events);
    var y := Interleave(serve, Initial(s), events);
    var picks: seq<nat> :| ExplainedBy(serve, s, y.log, picks, y.stored);
    SerialInvariant(serve, holds, s, Picked(y.log, picks));
  }

  // ---- When nothing is lost ----

  /** Every save starts from the value that is stored when it happens. */
  ghost predicate NoneStale<S, R>(serve: Server<S, R>, s: S, events: seq<Event<R>>) {
    forall i :: 0 <= i < |events| && events[i].Save? ==>
      var y := Interleave(serve, Initial(s), events[..i]);
      events[i].ticket in y.inFlight ==> y.inFlight[events[i].ticket].copy == y.stored
  }

  /** Without a stale save the stored value is the serial execution of all the saved requests. */
  lemma {:induction false} NoneStaleIsSerial<S, R>(serve: Server<S, R>, s: S, events: seq<Event<R>>)
    requires NoneStale(serve, s, events)
    ensures var y := Interleave(serve, Initial(s), events); y.stored == Serial(serve, s, y.log)
  {
    if events != [] {
      var n := |events| - 1;
      forall i | 0 <= i < n ensures events[..n][..i] == events[..i] {}
      NoneStaleIsSerial(serve, s, events[..n]);
    }
  }

  /** One load at a time, each followed by its save. */
  function OneByOne<R>(requests: seq<R>): seq<Event<R>> {
    if requests == [] then []
    else OneByOne(requests[..|requests| - 1]) + [Load(0, requests[|requests| - 1]), Save(0)]
  }

  /** Requests that do not overlap are served serially. */
  lemma {:induction false} OneByOneIsSerial<S, R>(serve: Server<S, R>, s: S, requests: seq<R>)
    ensures var y := Interleave(serve, Initial(s), OneByOne(requests));
            y.stored == Serial(serve, s, requests) && y.inFlight == map[]
  {
    if requests != [] {
      var n := |requests| - 1;
      OneByOneIsSerial(serve, s, requests[..n]);
      var before, events := OneByOne(requests[..n]), OneByOne(requests);
      assert events[..|events| - 1] == before + [Load(0, requests[n])];
      assert (before + [Load(0, requests[n])])[..|before|] == before;
    }
  }
}
