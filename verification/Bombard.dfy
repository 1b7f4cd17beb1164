/** The load generator's threads as one interleaving state machine (cmd/bombard/main.go): one
    issuer, any number of send workers and watchers, and a monitor that requests resyncs. Each
    step is one atomic operation of the source: "send to channel" and `issued.Add` are separate,
    "remove from the maps" and `mined.Add` are separate, and the three counter reads of an
    in-flight check happen one at a time. */
module Bombard {
  import opened Trackers
  import opened Words

  /** Run parameters: the in-flight cap (also the channel capacity), tokens per second, burst. */
  datatype Params = Params(cap: nat, rate: real, burst: real)

  ghost predicate ValidParams(p: Params) {
    1 <= p.cap < TWO_64 && p.rate >= 0.0 && p.burst >= 0.0
  }

  /** Where the issuer is inside its tick. Read values travel with the program counter. */
  datatype IssuerAt =
    | Waiting
    | Resyncing(frontier: nat)
    | Refilling
    | Deciding
    | ReadIssued(i: nat)
    | ReadMined(i: nat, m: nat)
    | Cleared(ghostMined: nat)
    | Sent(ghostMined: nat)

  datatype State = State(
    // shared with the workers, watchers and monitor
    queue: seq<nat>, held: map<nat, nat>, books: Books,
    issued: nat, mined: nat, dropped: nat, counting: nat,
    resyncPending: bool, resyncTarget: nat,
    // the issuer's own
    at: IssuerAt, next: nat, tokens: real, clock: real,
    // bookkeeping no thread reads
    signFailures: nat, overwrites: nat, resyncs: nat, base: nat, released: seq<nat>)

  function Initial(startNonce: nat): State {
    State([], map[], EMPTY, 0, 0, 0, 0, false, 0,
          Waiting, startNonce, 0.0, 0.0, 0, 0, 0, startNonce, [])
  }

  datatype Step =
    | TickResync | TickPlain | ApplyResync | Refill(elapsed: real)
    | OutOfTokens | LoadIssued | LoadMined | LoadDropped | Send | Saturate | CountIssued
    | Take(worker: nat) | SignFail(worker: nat) | Register(worker: nat)
    | RemoveMined(hash: Hash) | CountMined
    | RequestTarget(frontier: nat) | RequestFlag

  /** Whether a step can happen in a state. */
  predicate Enabled(p: Params, s: State, step: Step) {
    match step
    case TickResync => s.at.Waiting? && s.resyncPending
    case TickPlain => s.at.Waiting? && !s.resyncPending
    case ApplyResync => s.at.Resyncing?
    case Refill(elapsed) => s.at.Refilling? && elapsed >= 0.0
    case OutOfTokens => s.at.Deciding? && s.tokens < 1.0
    case LoadIssued => s.at.Deciding? && s.tokens >= 1.0
    case LoadMined => s.at.ReadIssued?
    case LoadDropped => s.at.ReadMined?
    case Send => s.at.Cleared? && |s.queue| < p.cap
    case Saturate => s.at.Cleared? && |s.queue| >= p.cap
    case CountIssued => s.at.Sent?
    case Take(w) => s.queue != [] && w !in s.held
    case SignFail(w) => w in s.held
    case Register(w) => w in s.held
    case RemoveMined(h) => true
    case CountMined => s.counting > 0
    case RequestTarget(f) => true
    case RequestFlag => true
  }

  function Min(a: real, b: real): real { if a < b then a else b }

  /** What the step does. */
  function Next(p: Params, s: State, step: Step): State
    requires Enabled(p, s, step)
  {
    match step
    case TickResync => s.(at := Resyncing(s.resyncTarget))
    case TickPlain => s.(at := Refilling)
    case ApplyResync =>
      s.(dropped := s.dropped + |s.books.inflight|, books := EMPTY,
         next := s.at.frontier, base := s.at.frontier, released := [], tokens := 0.0,
         resyncPending := false, resyncs := s.resyncs + 1, at := Refilling)
    case Refill(elapsed) =>
      s.(tokens := Min(s.tokens + p.rate * elapsed, p.burst), clock := s.clock + elapsed, at := Deciding)
    case OutOfTokens => s.(at := Waiting)
    case LoadIssued => s.(at := ReadIssued(s.issued))
    case LoadMined => s.(at := ReadMined(s.at.i, s.mined))
    case LoadDropped =>
      var inFlight := InFlightOf(s.at.i, s.at.m, s.dropped);
      if inFlight < p.cap then s.(at := Cleared(s.at.m)) else s.(at := Waiting)
    case Send => s.(queue := s.queue + [s.next], released := s.released + [s.next], at := Sent(s.at.ghostMined))
    case Saturate => s.(at := Waiting)
    case CountIssued => s.(issued := s.issued + 1, next := s.next + 1, tokens := s.tokens - 1.0, at := Deciding)
    case Take(w) => s.(held := s.held[w := s.queue[0]], queue := s.queue[1..])
    case SignFail(w) => s.(held := s.held - {w}, signFailures := s.signFailures + 1)
    case Register(w) =>
      var n := s.held[w];
      s.(held := s.held - {w}, books := Registered(s.books, n),
         overwrites := s.overwrites + (if n in s.books.inflight then 1 else 0))
    case RemoveMined(h) =>
      if h !in s.books.byHash then s
      else s.(books := Removed(s.books, h), counting := s.counting + 1)
    case CountMined => s.(counting := s.counting - 1, mined := s.mined + 1)
    case RequestTarget(f) => s.(resyncTarget := f)
    case RequestFlag => s.(resyncPending := true)
  }

  /** A run: the initial state followed by enabled steps in any order. */
  ghost predicate IsRun(p: Params, startNonce: nat, states: seq<State>, steps: seq<Step>) {
    && |states| == |steps| + 1
    && states[0] == Initial(startNonce)
    && forall i :: 0 <= i < |steps| ==> Enabled(p, states[i], steps[i]) && states[i + 1] == Next(p, states[i], steps[i])
  }

  /** Nonces the issuer has put on the channel. */
  function Sends(s: State): nat {
    s.issued + (if s.at.Sent? then 1 else 0)
  }

  function Lost(s: State): nat { s.signFailures + s.overwrites }

  /** Every send is in exactly one place. */
  ghost predicate Conserved(s: State) {
    Sends(s) == s.mined + s.counting + s.dropped + |s.books.inflight| + |s.queue| + |s.held| + Lost(s)
  }

  ghost predicate HashesInverse(s: State) { Inverse(s.books) }

  /** What the issuer knows at each point of its in-flight check. */
  ghost predicate ReadsSound(p: Params, s: State) {
    match s.at
    case ReadIssued(i) => i == s.issued
    case ReadMined(i, m) => i == s.issued && m <= s.mined && i - m - s.dropped <= p.cap
    case Cleared(m) => m <= s.mined && s.issued - m - s.dropped < p.cap
    case Sent(m) => m <= s.mined && s.issued - m - s.dropped < p.cap
    case _ => true
  }

  ghost predicate UnderCap(p: Params, s: State) {
    s.issued - s.mined - s.dropped <= p.cap
  }

  ghost predicate TokensSound(p: Params, s: State) {
    && 0.0 <= s.tokens <= p.burst
    && (s.at.ReadIssued? || s.at.ReadMined? || s.at.Cleared? || s.at.Sent? ==> s.tokens >= 1.0)
  }

  /** Since the last resync (or the start) the released nonces are base, base + 1, ... */
  ghost predicate Consecutive(s: State) {
    && |s.released| == s.next - s.base + (if s.at.Sent? then 1 else 0)
    && forall i :: 0 <= i < |s.released| ==> s.released[i] == s.base + i
  }

  ghost predicate Inv(p: Params, s: State) {
    Conserved(s) && HashesInverse(s) && ReadsSound(p, s) && UnderCap(p, s) && TokensSound(p, s) && Consecutive(s)
  }

  lemma {:induction false} TakeKeepsConserved(p: Params, s: State, step: Step)
    requires Enabled(p, s, step) && Conserved(s) && (step.Take? || step.SignFail?)
    ensures Conserved(Next(p, s, step))
  {
    match step
    case Take(w) => AddKey(s.held, w, s.queue[0]);
    case SignFail(w) => RemoveKey(s.held, w);
  }

  lemma {:induction false} RegisterKeepsConserved(p: Params, s: State, step: Step)
    requires Enabled(p, s, step) && Conserved(s) && step.Register?
    ensures Conserved(Next(p, s, step))
  {
    var t := Next(p, s, step);
    var n := s.held[step.worker];
    RemoveKey(s.held, step.worker);
    if n in s.books.inflight {
      assert t.books.inflight == s.books.inflight;
    } else {
      assert |t.books.inflight| == |s.books.inflight| + 1;
    }
  }

  lemma {:induction false} RemovalKeepsConserved(p: Params, s: State, step: Step)
    requires Enabled(p, s, step) && Conserved(s) && HashesInverse(s) && (step.RemoveMined? || step.ApplyResync?)
    ensures Conserved(Next(p, s, step))
  {
    if step.RemoveMined? && step.hash in s.books.byHash {
      assert s.books.byHash[step.hash] in s.books.inflight;
    }
  }

  lemma {:induction false} CounterKeepsConserved(p: Params, s: State, step: Step)
    requires Enabled(p, s, step) && Conserved(s)
    requires !step.Take? && !step.SignFail? && !step.Register? && !step.RemoveMined? && !step.ApplyResync?
    ensures Conserved(Next(p, s, step))
  {
  }

  lemma {:induction false} StepKeepsConserved(p: Params, s: State, step: Step)
    requires Enabled(p, s, step) && Conserved(s) && HashesInverse(s)
    ensures Conserved(Next(p, s, step))
  {
    hide Next, Conserved, HashesInverse, Enabled;
    if step.Take? || step.SignFail? {
      TakeKeepsConserved(p, s, step);
    } else if step.Register? {
      RegisterKeepsConserved(p, s, step);
    } else if step.RemoveMined? || step.ApplyResync? {
      RemovalKeepsConserved(p, s, step);
    } else {
      CounterKeepsConserved(p, s, step);
    }
  }

  lemma {:induction false} AddKey(m: map<nat, nat>, k: nat, v: nat)
    requires k !in m
    ensures |m[k := v]| == |m| + 1
  {
    assert m[k := v].Keys == m.Keys + {k};
    assert |m[k := v].Keys| == |m[k := v]|;
  }

  lemma {:induction false} RemoveKey(m: map<nat, nat>, k: nat)
    requires k in m
    ensures |m - {k}| == |m| - 1
  {
    assert (m - {k}).Keys == m.Keys - {k};
    assert |(m - {k}).Keys| == |m - {k}|;
  }

  lemma {:induction false} StepKeepsHashes(p: Params, s: State, step: Step)
    requires Enabled(p, s, step) && HashesInverse(s)
    ensures HashesInverse(Next(p, s, step))
  {
  }

  /** The in-flight value the issuer computes is the true difference of what it read: the
      unsigned subtractions never wrap, because the issuer is never between a send and its count
      when it reads, and everything mined or dropped was counted as issued before. */
  lemma {:induction false} IssuerReadExact(p: Params, s: State)
    requires ValidParams(p) && Inv(p, s) && s.at.ReadMined?
    ensures 0 <= s.at.i - s.at.m - s.dropped <= p.cap
    ensures InFlightOf(s.at.i, s.at.m, s.dropped) == s.at.i - s.at.m - s.dropped
  {
  }

  /** The cap holds although the three counters are read one at a time: a stale mined count only
      makes the issuer more cautious. */
  lemma {:induction false} StepKeepsCap(p: Params, s: State, step: Step)
    requires ValidParams(p) && Enabled(p, s, step) && Inv(p, s)
    ensures ReadsSound(p, Next(p, s, step)) && UnderCap(p, Next(p, s, step))
  {
    if step.LoadDropped? {
      IssuerReadExact(p, s);
    }
  }

  lemma {:induction false} StepKeepsTokens(p: Params, s: State, step: Step)
    requires ValidParams(p) && Enabled(p, s, step) && TokensSound(p, s)
    ensures TokensSound(p, Next(p, s, step))
  {
    if step.Refill? {
      assert p.rate * step.elapsed >= 0.0;
    }
  }

  lemma {:induction false} StepKeepsConsecutive(p: Params, s: State, step: Step)
    requires Enabled(p, s, step) && Consecutive(s)
    ensures Consecutive(Next(p, s, step))
  {
  }

  /** The saturation branch is dead code: the channel holds as many nonces as the cap allows, and
      a check that passed leaves room for one more. */
  lemma {:induction false} NeverSaturated(p: Params, s: State)
    requires Inv(p, s) && s.at.Cleared?
    ensures |s.queue| < p.cap && !Enabled(p, s, Saturate)
  {
  }

  lemma {:induction false} StepKeepsInv(p: Params, s: State, step: Step)
    requires ValidParams(p) && Inv(p, s) && Enabled(p, s, step)
    ensures Inv(p, Next(p, s, step))
  {
    hide Next, Conserved, HashesInverse, ReadsSound, UnderCap, TokensSound, Consecutive;
    StepKeepsConserved(p, s, step);
    StepKeepsHashes(p, s, step);
    StepKeepsCap(p, s, step);
    StepKeepsTokens(p, s, step);
    StepKeepsConsecutive(p, s, step);
  }

  /** In every state of every interleaving: sends are conserved, the hash map is the exact
      inverse of the in-flight set, the cap holds, tokens stay within the burst and released
      nonces are consecutive. */
  lemma {:induction false} RunInvariant(p: Params, startNonce: nat, states: seq<State>, steps: seq<Step>, k: nat)
    requires ValidParams(p) && IsRun(p, startNonce, states, steps) && k < |states|
    ensures Inv(p, states[k])
  {
    if k > 0 {
      hide Inv, Next;
      RunInvariant(p, startNonce, states, steps, k - 1);
      StepKeepsInv(p, states[k - 1], steps[k - 1]);
    }
  }

  /** Before the first resync every nonce in the system is in one place only. */
  ghost predicate Unrepeated(s: State) {
    s.resyncs == 0 ==>
      && s.overwrites == 0
      && (forall i, j :: 0 <= i < j < |s.queue| ==> s.queue[i] != s.queue[j])
      && (forall i :: 0 <= i < |s.queue| ==> s.queue[i] !in s.books.inflight)
      && (forall w :: w in s.held ==> s.held[w] !in s.books.inflight && s.held[w] !in s.queue)
      && (forall v, w :: v in s.held && w in s.held && v != w ==> s.held[v] != s.held[w])
      && (forall n :: n in s.queue || n in s.books.inflight ==> n < s.base + |s.released|)
      && (forall w :: w in s.held ==> s.held[w] < s.base + |s.released|)
  }

  lemma {:induction false} TakeKeepsUnrepeated(p: Params, s: State, step: Step)
    requires Enabled(p, s, step) && Unrepeated(s) && s.resyncs == 0 && step.Take?
    ensures Unrepeated(Next(p, s, step))
  {
    var t := Next(p, s, step);
    assert s.queue[0] in s.queue && forall i :: 0 <= i < |t.queue| ==> t.queue[i] == s.queue[i + 1];
    assert forall v :: v in t.held && v != step.worker ==> v in s.held && t.held[v] == s.held[v];
  }

  lemma {:induction false} FinishKeepsUnrepeated(p: Params, s: State, step: Step)
    requires Enabled(p, s, step) && Unrepeated(s) && s.resyncs == 0 && (step.SignFail? || step.Register?)
    ensures Unrepeated(Next(p, s, step))
  {
    var t := Next(p, s, step);
    assert forall v :: v in t.held ==> v in s.held && v != step.worker && t.held[v] == s.held[v];
  }

  lemma {:induction false} SendKeepsUnrepeated(p: Params, s: State)
    requires Enabled(p, s, Send) && Unrepeated(s) && Consecutive(s) && s.resyncs == 0
    ensures Unrepeated(Next(p, s, Send))
  {
    assert s.next == s.base + |s.released|;
  }

  lemma {:induction false} OthersKeepUnrepeated(p: Params, s: State, step: Step)
    requires Enabled(p, s, step) && Unrepeated(s) && HashesInverse(s)
    requires !step.Take? && !step.SignFail? && !step.Register? && !step.Send?
    ensures Unrepeated(Next(p, s, step))
  {
  }

  lemma {:induction false} ResyncsGrow(p: Params, s: State, step: Step)
    requires Enabled(p, s, step)
    ensures s.resyncs <= Next(p, s, step).resyncs
  {
  }

  lemma {:induction false} StepKeepsUnrepeated(p: Params, s: State, step: Step)
    requires Enabled(p, s, step) && Unrepeated(s) && Consecutive(s) && HashesInverse(s)
    ensures Unrepeated(Next(p, s, step))
  {
    ResyncsGrow(p, s, step);
    hide Next, Enabled, Consecutive, HashesInverse;
    if Next(p, s, step).resyncs == 0 {
      hide Unrepeated;
      if step.Take? {
        TakeKeepsUnrepeated(p, s, step);
      } else if step.SignFail? || step.Register? {
        FinishKeepsUnrepeated(p, s, step);
      } else if step.Send? {
        SendKeepsUnrepeated(p, s);
      } else {
        OthersKeepUnrepeated(p, s, step);
      }
    }
  }

  /** No registration overwrites another before the first resync. */
  lemma {:induction false} NoOverwriteBeforeResync(p: Params, startNonce: nat, states: seq<State>, steps: seq<Step>,
                                                   k: nat)
    requires ValidParams(p) && IsRun(p, startNonce, states, steps) && k < |states|
    ensures Unrepeated(states[k])
    ensures states[k].resyncs == 0 ==> states[k].overwrites == 0 && Lost(states[k]) == states[k].signFailures
  {
    if k > 0 {
      hide Next;
      NoOverwriteBeforeResync(p, startNonce, states, steps, k - 1);
      RunInvariant(p, startNonce, states, steps, k - 1);
      StepKeepsUnrepeated(p, states[k - 1], steps[k - 1]);
    }
  }

  // ------------------------------------------------------------------------------------------
  // What the step list alone determines

  /** The frontier last requested in the first n steps, 0 if none was. */
  ghost function LastTarget(steps: seq<Step>, n: nat): nat
    requires n <= |steps|
  {
    if n == 0 then 0
    else if steps[n - 1].RequestTarget? then steps[n - 1].frontier
    else LastTarget(steps, n - 1)
  }

  /** The frontier that had been requested when the last resync tick was taken. */
  ghost function TickTarget(steps: seq<Step>, n: nat): nat
    requires n <= |steps|
  {
    if n == 0 then 0
    else if steps[n - 1].TickResync? then LastTarget(steps, n - 1)
    else TickTarget(steps, n - 1)
  }

  /** A request was raised and no resync has completed since. */
  ghost predicate Requested(steps: seq<Step>, n: nat)
    requires n <= |steps|
  {
    n > 0 && (steps[n - 1].RequestFlag? || (!steps[n - 1].ApplyResync? && Requested(steps, n - 1)))
  }

  /** The nonce to be released next: the start nonce or the target of the last resync, plus the
      nonces counted as issued since. */
  ghost function NextNonce(startNonce: nat, steps: seq<Step>, n: nat): nat
    requires n <= |steps|
  {
    if n == 0 then startNonce
    else if steps[n - 1].ApplyResync? then TickTarget(steps, n - 1)
    else NextNonce(startNonce, steps, n - 1) + if steps[n - 1].CountIssued? then 1 else 0
  }

  /** The nonces sent, in order, and how many of them workers took. */
  ghost function SentNonces(startNonce: nat, steps: seq<Step>, n: nat): seq<nat>
    requires n <= |steps|
  {
    if n == 0 then []
    else SentNonces(startNonce, steps, n - 1)
         + if steps[n - 1].Send? then [NextNonce(startNonce, steps, n - 1)] else []
  }

  ghost function Taken(steps: seq<Step>, n: nat): nat
    requires n <= |steps|
  {
    if n == 0 then 0 else Taken(steps, n - 1) + if steps[n - 1].Take? then 1 else 0
  }

  lemma {:induction false} RequestStep(p: Params, s: State, step: Step)
    requires Enabled(p, s, step)
    ensures var t := Next(p, s, step);
            && t.resyncTarget == (if step.RequestTarget? then step.frontier else s.resyncTarget)
            && (t.resyncPending <==> step.RequestFlag? || (!step.ApplyResync? && s.resyncPending))
            && (t.at.Resyncing? ==> t.at.frontier == if step.TickResync? then s.resyncTarget else s.at.frontier)
            && (t.at.Resyncing? && !step.TickResync? ==> s.at.Resyncing?)
  {
    hide Registered, Removed, InFlightOf;
  }

  lemma {:induction false} RequestsTracked(p: Params, startNonce: nat, states: seq<State>, steps: seq<Step>, k: nat)
    requires IsRun(p, startNonce, states, steps) && k < |states|
    ensures states[k].resyncTarget == LastTarget(steps, k)
    ensures states[k].resyncPending <==> Requested(steps, k)
    ensures states[k].at.Resyncing? ==> states[k].at.frontier == TickTarget(steps, k)
  {
    hide IsRun, Next, Enabled;
    if k > 0 {
      RequestsTracked(p, startNonce, states, steps, k - 1);
      RunStep(p, startNonce, states, steps, k - 1);
      RequestStep(p, states[k - 1], steps[k - 1]);
    } else {
      RunBegins(p, startNonce, states, steps);
    }
  }

  lemma {:induction false} NonceStep(p: Params, s: State, step: Step)
    requires Enabled(p, s, step)
    ensures Next(p, s, step).next ==
            if step.ApplyResync? then s.at.frontier else s.next + if step.CountIssued? then 1 else 0
    ensures step.ApplyResync? ==> s.at.Resyncing?
  {
    hide Registered, Removed, InFlightOf;
  }

  lemma {:induction false} NonceTracked(p: Params, startNonce: nat, states: seq<State>, steps: seq<Step>, k: nat)
    requires IsRun(p, startNonce, states, steps) && k < |states|
    ensures states[k].next == NextNonce(startNonce, steps, k)
  {
    hide IsRun, Next, Enabled, LastTarget, TickTarget, Requested;
    if k > 0 {
      NonceTracked(p, startNonce, states, steps, k - 1);
      RequestsTracked(p, startNonce, states, steps, k - 1);
      RunStep(p, startNonce, states, steps, k - 1);
      NonceStep(p, states[k - 1], steps[k - 1]);
    } else {
      RunBegins(p, startNonce, states, steps);
    }
  }

  /** Workers take nonces in the order they were sent. */
  lemma {:induction false} QueueTracked(p: Params, startNonce: nat, states: seq<State>, steps: seq<Step>, k: nat)
    requires IsRun(p, startNonce, states, steps) && k < |states|
    ensures Taken(steps, k) <= |SentNonces(startNonce, steps, k)|
    ensures states[k].queue == SentNonces(startNonce, steps, k)[Taken(steps, k)..]
  {
    hide IsRun, Next, Enabled, NextNonce;
    if k > 0 {
      QueueTracked(p, startNonce, states, steps, k - 1);
      NonceTracked(p, startNonce, states, steps, k - 1);
      RunStep(p, startNonce, states, steps, k - 1);
      QueueStep(p, states[k - 1], steps[k - 1]);
    } else {
      RunBegins(p, startNonce, states, steps);
    }
  }

  lemma {:induction false} QueueStep(p: Params, s: State, step: Step)
    requires Enabled(p, s, step)
    ensures Next(p, s, step).queue ==
            if step.Send? then s.queue + [s.next] else if step.Take? then s.queue[1..] else s.queue
    ensures step.Take? ==> s.queue != []
  {
  }

  /** A tick resyncs exactly when a request is pending. */
  lemma {:induction false} TickResyncsExactly(p: Params, startNonce: nat, states: seq<State>, steps: seq<Step>, k: nat)
    requires IsRun(p, startNonce, states, steps) && k < |steps|
    ensures steps[k].TickResync? ==> Requested(steps, k)
    ensures steps[k].TickPlain? ==> !Requested(steps, k)
  {
    RequestsTracked(p, startNonce, states, steps, k);
    RunStep(p, startNonce, states, steps, k);
    hide IsRun, Next;
  }

  /** The resync step: the next nonce is the frontier of the last request before its tick, everything
      in flight is dropped by count, the tokens are gone and the request is answered. */
  lemma {:induction false} ResyncExact(p: Params, startNonce: nat, states: seq<State>, steps: seq<Step>, k: nat)
    requires IsRun(p, startNonce, states, steps) && k < |steps| && steps[k].ApplyResync?
    ensures var s, t := states[k], states[k + 1];
            && t.next == TickTarget(steps, k) && t.base == t.next && t.tokens == 0.0 && !t.resyncPending
            && t.books.inflight == {} && t.books.byHash == map[] && t.dropped == s.dropped + |s.books.inflight|
            && t.queue == s.queue && t.held == s.held && t.issued == s.issued && t.mined == s.mined
  {
    RequestsTracked(p, startNonce, states, steps, k);
    RunStep(p, startNonce, states, steps, k);
    hide IsRun;
  }

  /** The issuer's tick: tokens accrue up to the burst, and a nonce is released exactly when a token is
      left and the true in-flight value of the counters it read is under the cap. */
  lemma {:induction false} TickExact(p: Params, startNonce: nat, states: seq<State>, steps: seq<Step>, k: nat)
    requires ValidParams(p) && IsRun(p, startNonce, states, steps) && k < |steps|
    ensures var s, t := states[k], states[k + 1];
            match steps[k]
            case Refill(elapsed) =>
              var sum := s.tokens + p.rate * elapsed;
              t.tokens == (if sum <= p.burst then sum else p.burst) && t.clock == s.clock + elapsed
            case OutOfTokens => s.tokens < 1.0
            case LoadIssued => s.tokens >= 1.0
            case LoadDropped => s.at.ReadMined? && (t.at.Cleared? <==> s.at.i - s.at.m - s.dropped < p.cap)
            case Send => t.queue == s.queue + [NextNonce(startNonce, steps, k)]
            case CountIssued => t.issued == s.issued + 1 && t.tokens == s.tokens - 1.0
            case _ => true
  {
    hide IsRun, Next, Enabled, Inv, NextNonce;
    RunBegins(p, startNonce, states, steps);
    NonceTracked(p, startNonce, states, steps, k);
    RunStep(p, startNonce, states, steps, k);
    RunInvariant(p, startNonce, states, steps, k);
    TickStep(p, states[k], steps[k]);
  }

  lemma {:induction false} TickStep(p: Params, s: State, step: Step)
    requires ValidParams(p) && Inv(p, s) && Enabled(p, s, step)
    ensures var t := Next(p, s, step);
            match step
            case Refill(elapsed) =>
              var sum := s.tokens + p.rate * elapsed;
              t.tokens == (if sum <= p.burst then sum else p.burst) && t.clock == s.clock + elapsed
            case OutOfTokens => s.tokens < 1.0
            case LoadIssued => s.tokens >= 1.0
            case LoadDropped => s.at.ReadMined? && (t.at.Cleared? <==> s.at.i - s.at.m - s.dropped < p.cap)
            case Send => t.queue == s.queue + [s.next]
            case CountIssued => t.issued == s.issued + 1 && t.tokens == s.tokens - 1.0
            case _ => true
  {
    if step.LoadDropped? { IssuerReadExact(p, s); }
    hide Inv, Registered, Removed, InFlightOf;
  }

  /** Tokens that accrue between two clock readings. */
  ghost function Accrued(p: Params, s: State, t: State): real {
    p.rate * (t.clock - s.clock)
  }

  lemma {:induction false} SplitSpan(p: Params, a: State, b: State, c: State)
    ensures Accrued(p, a, c) == Accrued(p, a, b) + Accrued(p, b, c)
  {
  }

  /** One step releases no more than the tokens it pays for. */
  lemma {:induction false} StepPaysTokens(p: Params, s: State, step: Step)
    requires ValidParams(p) && Enabled(p, s, step) && TokensSound(p, s)
    ensures var t := Next(p, s, step);
            t.issued as real + t.tokens <= s.issued as real + s.tokens + Accrued(p, s, t)
  {
    var t := Next(p, s, step);
    if step.Refill? {
      assert t.clock - s.clock == step.elapsed;
      assert Accrued(p, s, t) == p.rate * step.elapsed;
    } else {
      assert t.clock - s.clock == 0.0;
      assert Accrued(p, s, t) == 0.0;
      assert step.CountIssued? ==> t.issued as real == s.issued as real + 1.0;
    }
  }

  lemma {:induction false} SpanPaysTokens(p: Params, startNonce: nat, states: seq<State>, steps: seq<Step>, i: nat,
                                          j: nat)
    requires ValidParams(p) && IsRun(p, startNonce, states, steps) && i <= j < |states|
    ensures states[j].issued as real + states[j].tokens
              <= states[i].issued as real + states[i].tokens + Accrued(p, states[i], states[j])
  {
    if i < j {
      hide Next, Accrued, Enabled, Conserved, HashesInverse, ReadsSound, UnderCap, TokensSound, Consecutive;
      SpanPaysTokens(p, startNonce, states, steps, i, j - 1);
      RunInvariant(p, startNonce, states, steps, j - 1);
      StepPaysTokens(p, states[j - 1], steps[j - 1]);
      SplitSpan(p, states[i], states[j - 1], states[j]);
    }
  }

  /** Over any span of a run the issuer releases at most burst + rate * elapsed nonces. */
  lemma {:induction false} RateBound(p: Params, startNonce: nat, states: seq<State>, steps: seq<Step>, i: nat, j: nat)
    requires ValidParams(p) && IsRun(p, startNonce, states, steps) && i <= j < |states|
    ensures (Sends(states[j]) - Sends(states[i])) as real <= p.burst + Accrued(p, states[i], states[j])
  {
    SpanPaysTokens(p, startNonce, states, steps, i, j);
    RunInvariant(p, startNonce, states, steps, i);
    RunInvariant(p, startNonce, states, steps, j);
  }

  const ONE := Params(1, 1.0, 1.0)

  /** The first check of a run passes. */
  lemma {:induction false} FirstCheckPasses() returns (states: seq<State>, steps: seq<Step>)
    ensures IsRun(ONE, 0, states, steps) && |states| == |steps| + 1
    ensures states[|steps|] == Initial(0).(at := Cleared(0), tokens := 1.0, clock := 1.0)
  {
    hide IsRun, Sub64;
    WrapValues();
    StartRun(ONE, 0);
    states, steps := ExtendRun(ONE, 0, [Initial(0)], [], TickPlain);
    states, steps := ExtendRun(ONE, 0, states, steps, Refill(1.0));
    assert states[2] == Initial(0).(at := Deciding, tokens := 1.0, clock := 1.0);
    states, steps := ExtendRun(ONE, 0, states, steps, LoadIssued);
    states, steps := ExtendRun(ONE, 0, states, steps, LoadMined);
    states, steps := ExtendRun(ONE, 0, states, steps, LoadDropped);
  }

  /** Its nonce is sent, signed and registered before it is counted as issued. */
  lemma {:induction false} RegisteredBeforeCounted() returns (states: seq<State>, steps: seq<Step>)
    ensures IsRun(ONE, 0, states, steps) && |states| == |steps| + 1
    ensures states[|steps|] == Initial(0).(at := Sent(0), tokens := 1.0, clock := 1.0, released := [0],
                                           books := Books({0}, map[TxHash(0) := 0]))
  {
    hide IsRun;
    states, steps := FirstCheckPasses();
    states, steps := ExtendRun(ONE, 0, states, steps, Send);
    states, steps := ExtendRun(ONE, 0, states, steps, Take(0));
    states, steps := ExtendRun(ONE, 0, states, steps, Register(0));
    assert map[0 := 0] - {0} == map[];
  }

  // ------------------------------------------------------------------------------------------
  // In-flight reads on the monitor's and the report's threads

  /** Sends that are neither mined nor dropped by count. */
  ghost function Uncounted(s: State): nat {
    s.counting + |s.books.inflight| + |s.queue| + |s.held| + Lost(s)
  }

  /** A reader loads the three counters one after another, at states a, b and c of the run. */
  ghost function OutsideRead(states: seq<State>, a: nat, b: nat, c: nat): nat
    requires a <= b <= c < |states|
  {
    InFlightOf(states[a].issued, states[b].mined, states[c].dropped)
  }

  /** What the reader's later loads counted that its first load could not see. */
  ghost function CountedMeanwhile(states: seq<State>, a: nat, b: nat, c: nat): int
    requires a <= b <= c < |states|
  {
    states[b].mined - states[a].mined + states[c].dropped - states[a].dropped
  }

  lemma {:induction false} CountersGrow(p: Params, startNonce: nat, states: seq<State>, steps: seq<Step>,
                                        i: nat, j: nat)
    requires IsRun(p, startNonce, states, steps) && i <= j < |states|
    ensures states[i].mined <= states[j].mined && states[i].dropped <= states[j].dropped
  {
    hide Next, Enabled, IsRun;
    if i < j {
      CountersGrow(p, startNonce, states, steps, i, j - 1);
      RunStep(p, startNonce, states, steps, j - 1);
      CountersStep(p, states[j - 1], steps[j - 1]);
    }
  }

  lemma {:induction false} CountersStep(p: Params, s: State, step: Step)
    requires Enabled(p, s, step)
    ensures s.mined <= Next(p, s, step).mined && s.dropped <= Next(p, s, step).dropped
  {
  }

  lemma {:induction false} RunStep(p: Params, startNonce: nat, states: seq<State>, steps: seq<Step>, i: nat)
    requires IsRun(p, startNonce, states, steps) && i + 1 < |states|
    ensures i < |steps| && Enabled(p, states[i], steps[i]) && states[i + 1] == Next(p, states[i], steps[i])
  {
    hide Next, Enabled;
  }

  lemma {:induction false} RunBegins(p: Params, startNonce: nat, states: seq<State>, steps: seq<Step>)
    requires IsRun(p, startNonce, states, steps)
    ensures states[0] == Initial(startNonce) && |states| == |steps| + 1
  {
  }

  lemma {:induction false} SubTwice(i: int, m: int, d: int)
    ensures Sub64(Sub64(i, m), d) == Sub64(i - m, d)
  {
  }

  /** An outside read is the true difference of what it loaded exactly when the work counted
      between its loads, together with a send the issuer has not counted yet, is no more than what
      was uncounted at its first load; in particular when no send happened that the first load
      missed. Otherwise it wraps. */
  lemma {:induction false} OutsideReadExact(p: Params, startNonce: nat, states: seq<State>, steps: seq<Step>,
                                            a: nat, b: nat, c: nat)
    requires ValidParams(p) && IsRun(p, startNonce, states, steps) && a <= b <= c < |states|
    ensures OutsideRead(states, a, b, c) == states[a].issued - states[b].mined - states[c].dropped
            <==> CountedMeanwhile(states, a, b, c) + (if states[a].at.Sent? then 1 else 0) <= Uncounted(states[a])
    ensures Sends(states[c]) == states[a].issued ==>
              OutsideRead(states, a, b, c) == states[a].issued - states[b].mined - states[c].dropped
  {
    RunInvariant(p, startNonce, states, steps, a);
    RunInvariant(p, startNonce, states, steps, c);
    CountersGrow(p, startNonce, states, steps, a, b);
    CountersGrow(p, startNonce, states, steps, b, c);
    hide IsRun, HashesInverse, ReadsSound, TokensSound, Consecutive;
    SubTwice(states[a].issued, states[b].mined, states[c].dropped);
  }

  /** Read at one instant, the difference is negative exactly when the one uncounted send has been
      mined or dropped already and nothing else is outstanding. */
  lemma {:induction false} SnapshotExact(p: Params, s: State)
    requires Inv(p, s)
    ensures s.mined + s.dropped > s.issued
            <==> (s.at.Sent? && s.counting == 0 && s.books.inflight == {} && s.queue == [] && s.held == map[]
                  && Lost(s) == 0)
  {
    hide HashesInverse, ReadsSound, TokensSound, Consecutive;
    assert |s.held| == 0 <==> s.held == map[];
    assert |s.books.inflight| == 0 <==> s.books.inflight == {};
  }

  lemma {:induction false} MiningSteps(s: State)
    requires s == Initial(0).(at := Sent(0), tokens := 1.0, clock := 1.0, released := [0],
                              books := Books({0}, map[TxHash(0) := 0]))
    ensures Enabled(ONE, s, RemoveMined(TxHash(0)))
    ensures var t := Next(ONE, s, RemoveMined(TxHash(0)));
            t == s.(books := EMPTY, counting := 1) && Enabled(ONE, t, CountMined)
            && Next(ONE, t, CountMined)
               == Initial(0).(at := Sent(0), tokens := 1.0, clock := 1.0, released := [0], mined := 1)
  {
    assert map[TxHash(0) := 0] - {TxHash(0)} == map[];
    assert Removed(s.books, TxHash(0)) == EMPTY;
  }

  /** It is mined before it is counted as issued, too. */
  lemma {:induction false} MinedBeforeCounted() returns (states: seq<State>, steps: seq<Step>)
    ensures IsRun(ONE, 0, states, steps) && |states| == |steps| + 1
    ensures states[|steps|] == Initial(0).(at := Sent(0), tokens := 1.0, clock := 1.0, released := [0], mined := 1)
  {
    hide IsRun, Next, Enabled, Initial;
    states, steps := RegisteredBeforeCounted();
    MiningSteps(states[|steps|]);
    states, steps := ExtendRun(ONE, 0, states, steps, RemoveMined(TxHash(0)));
    states, steps := ExtendRun(ONE, 0, states, steps, CountMined);
  }

  /** Even an instantaneous outside read then wraps to 2^64 - 1. */
  lemma {:induction false} OutsideReadCanWrap() returns (states: seq<State>, steps: seq<Step>)
    ensures IsRun(ONE, 0, states, steps) && |states| == |steps| + 1
    ensures OutsideRead(states, |steps|, |steps|, |steps|) == TWO_64 - 1
  {
    hide IsRun, Sub64;
    WrapValues();
    states, steps := MinedBeforeCounted();
  }

  /** A reader that is slow between its first two loads wraps even with a send still queued: it
      loads issued before the first send and mined after that nonce was mined. */
  lemma {:induction false} SlowReadCanWrap() returns (states: seq<State>, steps: seq<Step>)
    ensures IsRun(ONE, 0, states, steps) && |states| == |steps| + 1
    ensures OutsideRead(states, 0, |steps|, |steps|) == TWO_64 - 1
    ensures states[|steps|].queue == [1]
  {
    hide IsRun, Sub64;
    WrapValues();
    states, steps := MinedBeforeCounted();
    states, steps := ExtendRun(ONE, 0, states, steps, CountIssued);
    states, steps := ExtendRun(ONE, 0, states, steps, OutOfTokens);
    states, steps := ExtendRun(ONE, 0, states, steps, TickPlain);
    states, steps := ExtendRun(ONE, 0, states, steps, Refill(1.0));
    states, steps := ExtendRun(ONE, 0, states, steps, LoadIssued);
    states, steps := ExtendRun(ONE, 0, states, steps, LoadMined);
    states, steps := ExtendRun(ONE, 0, states, steps, LoadDropped);
    states, steps := ExtendRun(ONE, 0, states, steps, Send);
    RunBegins(ONE, 0, states, steps);
  }

  lemma {:induction false} WrapValues()
    ensures Sub64(0, 0) == 0 && Sub64(0, 1) == TWO_64 - 1 && Sub64(TWO_64 - 1, 0) == TWO_64 - 1 && Sub64(1, 1) == 0
  {
  }

  lemma {:induction false} StartRun(p: Params, startNonce: nat)
    ensures IsRun(p, startNonce, [Initial(startNonce)], [])
  {
  }

  lemma {:induction false} ExtendRun(p: Params, startNonce: nat, states: seq<State>, steps: seq<Step>, step: Step)
    returns (states': seq<State>, steps': seq<Step>)
    requires IsRun(p, startNonce, states, steps) && |states| == |steps| + 1 && Enabled(p, states[|steps|], step)
    ensures IsRun(p, startNonce, states', steps') && |states'| == |steps'| + 1 && |steps'| == |steps| + 1
    ensures states'[|steps'|] == Next(p, states[|steps|], step)
  {
    hide Next;
    states', steps' := states + [Next(p, states[|steps|], step)], steps + [step];
  }
}
