/**
 * The heartbeat batcher: tunnels submit beats into a bounded queue, one loop coalesces them into a batch,
 * and the batch is written to the store when it is full, when a timer fires, and at shutdown.
 */
module Heartbeat {
  import opened Prelude

  const BATCH_SIZE: nat := 1000
  const QUEUE_SIZE: nat := 4096

  datatype Beat = Beat(uid: string, at: int)

  /** One bulk update: the devices, and the one timestamp they all get. */
  datatype Write = Write(uids: seq<string>, seenAt: int)

  // ---------------------------------------------------------------------------------------------
  // Order on identifiers
  // ---------------------------------------------------------------------------------------------

  predicate Less(a: string, b: string) {
    if b == [] then false
    else if a == [] then true
    else a[0] < b[0] || (a[0] == b[0] && Less(a[1..], b[1..]))
  }

  lemma {:induction false} LessTotal(a: string, b: string)
    ensures a == b || Less(a, b) || Less(b, a)
  {
    if a != [] && b != [] && a[0] == b[0] {
      LessTotal(a[1..], b[1..]);
      assert a[1..] == b[1..] ==> a == [a[0]] + a[1..] == [b[0]] + b[1..] == b;
    }
  }

  lemma {:induction false} LessTransitive(a: string, b: string, c: string)
    requires Less(a, b) && Less(b, c)
    ensures Less(a, c)
  {
    if a != [] && a[0] == b[0] && b[0] == c[0] {
      LessTransitive(a[1..], b[1..], c[1..]);
    }
  }

  /** The order of Go's strings: the shorter first if it is a prefix, else the smaller at the first difference. */
  lemma {:induction false} LessIsLexicographic(a: string, b: string, k: nat)
    requires k <= |a| && k <= |b| && a[..k] == b[..k]
    ensures k == |a| < |b| ==> Less(a, b)
    ensures k < |a| && k < |b| && a[k] < b[k] ==> Less(a, b) && !Less(b, a)
    ensures k == |a| == |b| ==> !Less(a, b)
    ensures k == |b| < |a| ==> !Less(a, b)
  {
    if k > 0 {
      assert a[0] == a[..k][0] && b[0] == b[..k][0];
      assert a[1..][..k - 1] == a[..k][1..] && b[1..][..k - 1] == b[..k][1..];
      LessIsLexicographic(a[1..], b[1..], k - 1);
    }
  }

  predicate StrictlySorted(s: seq<string>) {
    forall i, j | 0 <= i < j < |s| :: Less(s[i], s[j])
  }

  function Insert(s: seq<string>, u: string): seq<string> {
    if s == [] || Less(u, s[0]) then [u] + s else [s[0]] + Insert(s[1..], u)
  }

  function Elements(s: seq<string>): set<string> {
    set u | u in s
  }

  lemma {:induction false} InsertAdds(s: seq<string>, u: string)
    ensures Elements(Insert(s, u)) == Elements(s) + {u}
    ensures |Insert(s, u)| == |s| + 1
  {
    if s != [] && !Less(u, s[0]) {
      InsertAdds(s[1..], u);
      assert s == [s[0]] + s[1..];
      assert Elements(s) == {s[0]} + Elements(s[1..]);
      assert Elements(Insert(s, u)) == {s[0]} + Elements(Insert(s[1..], u));
    }
  }

  lemma {:induction false} InsertSorts(s: seq<string>, u: string)
    requires StrictlySorted(s) && u !in s
    ensures StrictlySorted(Insert(s, u))
  {
    if s == [] {
    } else if Less(u, s[0]) {
      forall j | 0 < j < |s|
        ensures Less(u, s[j])
      {
        LessTransitive(u, s[0], s[j]);
      }
    } else {
      LessTotal(u, s[0]);
      InsertSorts(s[1..], u);
      InsertAdds(s[1..], u);
      var rest := Insert(s[1..], u);
      forall j | 0 <= j < |rest|
        ensures Less(s[0], rest[j])
      {
        assert rest[j] in Elements(rest);
      }
    }
  }

  /** Collects a set in whatever order it comes and sorts it. */
  method SortedUids(uids: set<string>) returns (sorted: seq<string>)
    ensures StrictlySorted(sorted) && Elements(sorted) == uids && |sorted| == |uids|
  {
    sorted := [];
    var rest := uids;
    while rest != {}
      invariant rest <= uids && Elements(sorted) == uids - rest
      invariant StrictlySorted(sorted) && |sorted| + |rest| == |uids|
      decreases rest
    {
      var u :| u in rest;
      assert u !in Elements(sorted);
      InsertSorts(sorted, u);
      InsertAdds(sorted, u);
      sorted := Insert(sorted, u);
      rest := rest - {u};
    }
  }

  // ---------------------------------------------------------------------------------------------
  // What a stretch of beats amounts to
  // ---------------------------------------------------------------------------------------------

  function UidsOf(beats: seq<Beat>): set<string> {
    set b | b in beats :: b.uid
  }

  function Earliest(beats: seq<Beat>): int
    requires beats != []
  {
    if |beats| == 1 then beats[0].at else Min(Earliest(beats[..|beats| - 1]), beats[|beats| - 1].at)
  }

  lemma {:induction false} EarliestIsMinimum(beats: seq<Beat>)
    requires beats != []
    ensures forall b | b in beats :: Earliest(beats) <= b.at
    ensures exists b :: b in beats && b.at == Earliest(beats)
  {
    var n := |beats| - 1;
    assert beats == beats[..n] + [beats[n]];
    assert beats[n] in beats;
    if n > 0 {
      EarliestIsMinimum(beats[..n]);
      var b :| b in beats[..n] && b.at == Earliest(beats[..n]);
      assert b in beats;
    }
  }

  lemma OneMoreBeat(beats: seq<Beat>, beat: Beat)
    ensures UidsOf(beats + [beat]) == UidsOf(beats) + {beat.uid}
    ensures Earliest(beats + [beat]) == if beats == [] then beat.at else Min(Earliest(beats), beat.at)
  {
    assert (beats + [beat])[..|beats|] == beats;
    forall u
      ensures u in UidsOf(beats + [beat]) <==> u in UidsOf(beats) + {beat.uid}
    {
      assert beat in beats + [beat];
    }
  }

  /** w is what a non-empty stretch of beats must write: its devices, once each, in order, and its earliest instant. */
  ghost predicate Summarises(w: Write, beats: seq<Beat>) {
    && beats != []
    && StrictlySorted(w.uids) && Elements(w.uids) == UidsOf(beats)
    && w.seenAt == Earliest(beats)
  }

  function Flatten(segments: seq<seq<Beat>>): seq<Beat> {
    if segments == [] then [] else Flatten(segments[..|segments| - 1]) + segments[|segments| - 1]
  }

  lemma FlattenAppend(segments: seq<seq<Beat>>, segment: seq<Beat>)
    ensures Flatten(segments + [segment]) == Flatten(segments) + segment
  {
    assert (segments + [segment])[..|segments|] == segments;
  }

  // ---------------------------------------------------------------------------------------------
  // The loop, on values
  // ---------------------------------------------------------------------------------------------

  /** What can happen while the loop runs. */
  datatype Event = Beaten(uid: string, at: int) | Received | Ticked

  /** Beats waiting, beats batched, and the stretches of beats that made up each write so far. */
  datatype Loop = Loop(queue: seq<Beat>, batch: seq<Beat>, segments: seq<seq<Beat>>)

  const IDLE := Loop([], [], [])

  function Flushed(l: Loop): Loop {
    if l.batch == [] then l else l.(batch := [], segments := l.segments + [l.batch])
  }

  function Next(l: Loop, event: Event): Loop {
    match event
    case Beaten(uid, at) =>
      if uid != "" && |l.queue| < QUEUE_SIZE then l.(queue := l.queue + [Beat(uid, at)]) else l
    case Received =>
      if l.queue == [] then l
      else
        var taken := l.(queue := l.queue[1..], batch := l.batch + [l.queue[0]]);
        if |UidsOf(taken.batch)| >= BATCH_SIZE then Flushed(taken) else taken
    case Ticked => Flushed(l)
  }

  function After(script: seq<Event>): Loop {
    if script == [] then IDLE else Next(After(script[..|script| - 1]), script[|script| - 1])
  }

  /** Shutdown writes all that is batched or queued as one more stretch. */
  function Closed(l: Loop): seq<seq<Beat>> {
    if l.batch + l.queue == [] then l.segments else l.segments + [l.batch + l.queue]
  }

  /** A submission that is not empty and finds room. */
  predicate Enters(event: Event, queued: nat) {
    event.Beaten? && event.uid != "" && queued < QUEUE_SIZE
  }

  /** How many beats a script leaves queued. */
  function Queued(script: seq<Event>): nat {
    if script == [] then 0
    else
      var before, last := Queued(script[..|script| - 1]), script[|script| - 1];
      if Enters(last, before) then before + 1 else if last.Received? && before > 0 then before - 1 else before
  }

  /** The beats a script gets into the queue, in order: all but empty ones and overflow. */
  function Taken(script: seq<Event>): seq<Beat> {
    if script == [] then []
    else
      var front, last := script[..|script| - 1], script[|script| - 1];
      Taken(front) + (if Enters(last, Queued(front)) then [Beat(last.uid, last.at)] else [])
  }

  lemma ScriptOneMore(script: seq<Event>, i: nat)
    requires i < |script| && |After(script[..i]).queue| == Queued(script[..i])
    ensures After(script[..i + 1]) == Next(After(script[..i]), script[i])
    ensures |After(script[..i + 1]).queue| == Queued(script[..i + 1])
    ensures Taken(script[..i + 1]) == Taken(script[..i])
              + (if Enters(script[i], Queued(script[..i])) then [Beat(script[i].uid, script[i].at)] else [])
  {
    assert script[..i + 1][..i] == script[..i];
  }

  // ---------------------------------------------------------------------------------------------
  // The batch
  // ---------------------------------------------------------------------------------------------

  class Batch {
    var uids: set<string>
    var oldest: int
    ghost var beats: seq<Beat>

    ghost predicate Valid()
      reads this
    {
      uids == UidsOf(beats) && (beats != [] ==> uids != {} && oldest == Earliest(beats))
    }

    constructor ()
      ensures Valid() && beats == []
    {
      uids := {};
      oldest := 0;
      beats := [];
    }

    method Add(beat: Beat)
      requires Valid()
      modifies this
      ensures Valid() && beats == old(beats) + [beat]
      ensures |uids| <= old(|uids|) + 1
    {
      if |uids| == 0 || beat.at < oldest {
        oldest := beat.at;
      }
      uids := uids + {beat.uid};
      beats := beats + [beat];
      OneMoreBeat(old(beats), beat);
    }

    method Take() returns (taken: Option<Write>)
      requires Valid()
      modifies this
      ensures Valid() && beats == []
      ensures old(beats) == [] ==> taken.None?
      ensures old(beats) != [] ==> taken.Some? && Summarises(taken.value, old(beats)) && |taken.value.uids| == |old(uids)|
    {
      if |uids| == 0 {
        return None;
      }
      var sorted := SortedUids(uids);
      taken := Some(Write(sorted, oldest));
      uids := {};
      oldest := 0;
      beats := [];
    }
  }

  // ---------------------------------------------------------------------------------------------
  // The heartbeater
  // ---------------------------------------------------------------------------------------------

  class DeviceHeartbeater {
    var queue: seq<Beat>
    const batch: Batch
    var written: seq<Write>
    var dropped: nat
    /** Every beat the queue ever took, and the stretches of it that made up each write. */
    ghost var enqueued: seq<Beat>
    ghost var segments: seq<seq<Beat>>

    /** Nothing is lost, repeated or reordered: written, then batched, then queued make up what was enqueued. */
    ghost predicate Valid()
      reads this, batch
    {
      && batch.Valid()
      && Flatten(segments) + batch.beats + queue == enqueued
      && |segments| == |written|
      && (forall i | 0 <= i < |written| :: Summarises(written[i], segments[i]))
      && |queue| <= QUEUE_SIZE
    }

    ghost function State(): Loop
      reads this, batch
    {
      Loop(queue, batch.beats, segments)
    }

    ghost predicate Bounded()
      reads this
    {
      forall i | 0 <= i < |written| :: |written[i].uids| <= BATCH_SIZE
    }

    /** While the loop is running the batch is short of full, and no write was over-full. */
    ghost predicate Running()
      reads this, batch
    {
      Valid() && |batch.uids| < BATCH_SIZE && Bounded()
    }

    constructor ()
      ensures Running() && fresh(batch) && enqueued == [] && State() == IDLE
    {
      batch := new Batch();
      queue := [];
      written := [];
      dropped := 0;
      enqueued := [];
      segments := [];
    }

    method Submit(uid: string, now: int)
      requires Valid()
      modifies this
      ensures Valid() && written == old(written) && segments == old(segments)
      ensures enqueued == old(enqueued) + (if uid != "" && |old(queue)| < QUEUE_SIZE then [Beat(uid, now)] else [])
      ensures queue == old(queue) + enqueued[|old(enqueued)|..]
      ensures dropped == old(dropped) + (if uid != "" && |old(queue)| >= QUEUE_SIZE then 1 else 0)
    {
      if uid == "" {
        return;
      }
      if |queue| < QUEUE_SIZE {
        queue := queue + [Beat(uid, now)];
        enqueued := enqueued + [Beat(uid, now)];
      } else {
        dropped := dropped + 1;
      }
    }

    method Flush()
      requires Valid()
      modifies this`written, this`segments, batch
      ensures Valid() && batch.beats == [] && |batch.uids| == 0
      ensures State() == Flushed(old(State()))
      ensures old(Bounded() && |batch.uids| <= BATCH_SIZE) ==> Bounded()
      ensures old(batch.beats) == [] ==> written == old(written)
      ensures old(batch.beats) != [] ==>
                |written| == |old(written)| + 1 && written[..|old(written)|] == old(written)
                && |written[|old(written)|].uids| == old(|batch.uids|)
    {
      ghost var beats := batch.beats;
      var taken := batch.Take();
      if taken.Some? {
        written := written + [taken.value];
        segments := segments + [beats];
        FlattenAppend(old(segments), beats);
      }
    }

    /** Moves the oldest queued beat into the batch. */
    method TakeOne()
      requires Valid() && queue != []
      modifies this`queue, batch
      ensures Valid() && queue == old(queue)[1..] && batch.beats == old(batch.beats) + [old(queue)[0]]
      ensures |batch.uids| <= old(|batch.uids|) + 1
    {
      var beat := queue[0];
      assert [beat] + queue[1..] == queue;
      queue := queue[1..];
      batch.Add(beat);
      assert Flatten(segments) + batch.beats + queue == enqueued;
    }

    /** The loop takes one beat off the queue and flushes a batch that has become full. */
    method Receive()
      requires Running() && queue != []
      modifies this`queue, this`written, this`segments, batch
      ensures Running() && queue == old(queue)[1..] && State() == Next(old(State()), Received)
      ensures var beats := old(batch.beats) + [old(queue)[0]];
              if |UidsOf(beats)| < BATCH_SIZE then batch.beats == beats && written == old(written)
              else batch.beats == [] && |written| == |old(written)| + 1 && |written[|old(written)|].uids| == BATCH_SIZE
    {
      TakeOne();
      if |batch.uids| >= BATCH_SIZE {
        Flush();
      }
    }

    method Tick()
      requires Running()
      modifies this`written, this`segments, batch
      ensures Running() && batch.beats == [] && State() == Next(old(State()), Ticked)
      ensures |written| == |old(written)| + (if old(batch.beats) == [] then 0 else 1)
    {
      Flush();
    }

    /** The shutdown branch: empty the queue into the batch, however large it grows, and write it. */
    method Shutdown()
      requires Valid()
      modifies this`queue, this`written, this`segments, batch
      ensures Valid() && queue == [] && batch.beats == []
      ensures Flatten(segments) == enqueued && segments == Closed(old(State()))
      ensures |old(written)| <= |written| <= |old(written)| + 1 && written[..|old(written)|] == old(written)
    {
      while queue != []
        invariant Valid() && segments == old(segments) && written == old(written)
        invariant batch.beats + queue == old(batch.beats + queue)
        decreases |queue|
      {
        assert [queue[0]] + queue[1..] == queue;
        TakeOne();
      }
      assert batch.beats == old(batch.beats + queue);
      Flush();
    }

    /** One thing that can happen while the loop runs. */
    method Happen(event: Event)
      requires Running()
      modifies this, batch
      ensures Running() && State() == Next(old(State()), event)
      ensures enqueued == old(enqueued) + (if Enters(event, |old(queue)|) then [Beat(event.uid, event.at)] else [])
    {
      match event
      case Beaten(uid, at) =>
        Submit(uid, at);
      case Received =>
        if queue != [] {
          Receive();
        }
      case Ticked =>
        Tick();
    }

    /** The loop: any interleaving of submissions, receipts and ticks. */
    method RunLoop(script: seq<Event>)
      requires Running() && enqueued == [] && State() == IDLE
      modifies this, batch
      ensures Running() && State() == After(script) && enqueued == Taken(script)
    {
      for i := 0 to |script|
        invariant Running() && State() == After(script[..i])
        invariant enqueued == Taken(script[..i]) && |queue| == Queued(script[..i])
      {
        ScriptOneMore(script, i);
        Happen(script[i]);
      }
      assert script[..|script|] == script;
    }

    /**
     * A life of the batcher: any run of the loop, and then a shutdown. Every beat that found room is in exactly
     * one write, and every write the loop made has at most a full batch.
     */
    method Live(script: seq<Event>)
      requires Running() && enqueued == []
      modifies this, batch
      ensures Valid() && Flatten(segments) == enqueued == Taken(script)
      ensures segments == Closed(After(script))
      ensures forall i | 0 <= i < |After(script).segments| :: |written[i].uids| <= BATCH_SIZE
    {
      assert |Flatten(segments) + batch.beats + queue| == 0;
      RunLoop(script);
      Shutdown();
      assert forall i | 0 <= i < |After(script).segments| :: written[i] == written[..|After(script).segments|][i];
    }
  }
}
