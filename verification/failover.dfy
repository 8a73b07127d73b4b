/** `Flash` and `Flasher`: send one message immediately, bypassing the outbound queue, to a
    primary destination and, when that fails, to alternates in order. `Flash` is static and
    opens a client per call; `Flasher` keeps per-destination client pools. */
module Failover {
  import opened Base
  import Guids
  import Addresses
  import DateTimes
  import Routing
  import OM = OutboundMessages
  import OQ = OutboundQueues

  type Msg = OM.OutboundMessage

  const PrimaryFailed: string := "Send to destination failed"
  const AlternatesFailed: string := "Alternative destination send failed"

  datatype Payload = Text(text: Option<string>) | Bytes(bytes: Option<seq<Byte>>)

  /** The message `SendMsg` builds: a new id, the clock reading as `Sent`, no attempts. */
  function Compose(from: Addresses.Address, to: Addresses.Address, id: Guids.Guid, typeName: Option<string>,
                   payload: Payload, now: DateTimes.DateTime): (m: Msg)
    ensures m.id == id && m.from == Some(from) && m.to == Some(to) && m.sendAttempts == 0
    ensures payload.Text? ==> m.text == payload.text && m.bytes.None?
    ensures payload.Bytes? ==> m.bytes == payload.bytes && m.text.None?
  {
    match payload
    case Text(t) => OM.OutboundMessage(None, id, Some(from), Some(to), now, typeName, None, t, 0, DateTimes.MinValue)
    case Bytes(b) => OM.OutboundMessage(None, id, Some(from), Some(to), now, typeName, b, None, 0, DateTimes.MinValue)
  }

  // ---------------------------------------------------------------------------
  // The failover rule
  // ---------------------------------------------------------------------------

  /** One send attempt from state `S`: the `k`-th attempt of the call, to `target`. */
  type Attempt<!S> = (S, nat, Addresses.Address) -> (S, Result<Guids.Guid>)

  /** The alternate loop: try each alternate in order and return the first id sent; when all
      fail, throw wrapping the last failure (nothing when there was no alternate). */
  function Alternates<S>(s: S, alts: seq<Addresses.Address>, k: nat, attempt: Attempt<S>, last: Option<Exn>)
    : (r: (S, Result<Guids.Guid>))
    ensures r.1.Err? ==> r.1.error.WebError? && r.1.error.reason == AlternatesFailed
    ensures |alts| == 0 ==> r == (s, Err(WebError(AlternatesFailed, last)))
    decreases |alts|
  {
    if |alts| == 0 then (s, Err(WebError(AlternatesFailed, last)))
    else
      var (s1, res) := attempt(s, k, alts[0]);
      if res.Ok? then (s1, res) else Alternates(s1, alts[1..], k + 1, attempt, Some(res.error))
  }

  /** The rule around the primary attempt. A null list of alternates rethrows the primary
      failure; so does an empty list when `emptyRethrows`, otherwise the empty loop throws. */
  function Failover<S>(primary: (S, Result<Guids.Guid>), alts: Option<seq<Addresses.Address>>,
                       emptyRethrows: bool, attempt: Attempt<S>): (r: (S, Result<Guids.Guid>))
    ensures primary.1.Ok? ==> r == primary
    ensures primary.1.Err? && (alts.None? || (emptyRethrows && |alts.value| == 0)) ==>
              r == (primary.0, Err(WebError(PrimaryFailed, Some(primary.1.error))))
    ensures primary.1.Err? && alts.Some? && |alts.value| == 0 && !emptyRethrows ==>
              r == (primary.0, Err(WebError(AlternatesFailed, None)))
  {
    var (s1, res) := primary;
    if res.Ok? then primary
    else if alts.None? || (emptyRethrows && |alts.value| == 0) then (s1, Err(WebError(PrimaryFailed, Some(res.error))))
    else Alternates(s1, alts.value, 1, attempt, None)
  }

  /** Index of the first success among `results`, if any. */
  function FirstOk(results: seq<Result<Guids.Guid>>): (i: Option<nat>)
    ensures i.Some? ==> i.value < |results| && results[i.value].Ok?
                        && forall j :: 0 <= j < i.value ==> results[j].Err?
    ensures i.None? ==> forall j :: 0 <= j < |results| ==> results[j].Err?
  {
    if |results| == 0 then None
    else if results[0].Ok? then Some(0)
    else
      var rest := FirstOk(results[1..]);
      if rest.Some? then Some(rest.value + 1) else None
  }

  /** What each alternate would give when sending has no state: the reference the loop is checked against. */
  function Outcomes(alts: seq<Addresses.Address>, k: nat, send: (nat, Addresses.Address) -> Result<Guids.Guid>)
    : (rs: seq<Result<Guids.Guid>>)
    ensures |rs| == |alts|
  {
    seq(|alts|, i requires 0 <= i < |alts| => send(k + i, alts[i]))
  }

  /** The stateless attempt built from `send`. */
  function Stateless(send: (nat, Addresses.Address) -> Result<Guids.Guid>): Attempt<()>
  {
    (s: (), k: nat, a: Addresses.Address) => ((), send(k, a))
  }

  /** Without state, the alternate loop returns the first alternate that succeeds, or fails
      wrapping the last alternate's failure. */
  lemma {:induction false} AlternatesFindFirst(alts: seq<Addresses.Address>, k: nat,
                                               send: (nat, Addresses.Address) -> Result<Guids.Guid>, last: Option<Exn>)
    ensures var rs := Outcomes(alts, k, send);
      var r := Alternates((), alts, k, Stateless(send), last).1;
      && (FirstOk(rs).Some? ==> r == rs[FirstOk(rs).value])
      && (FirstOk(rs).None? && |alts| > 0 ==> r == Err(WebError(AlternatesFailed, Some(rs[|alts| - 1].error))))
    decreases |alts|
  {
    if |alts| > 0 {
      var rs := Outcomes(alts, k, send);
      var res := send(k, alts[0]);
      assert rs[0] == res;
      if res.Err? {
        AlternatesFindFirst(alts[1..], k + 1, send, Some(res.error));
        var rs' := Outcomes(alts[1..], k + 1, send);
        assert rs[1..] == rs';
        if |alts| == 1 {
          assert rs' == [];
        } else {
          assert rs[|alts| - 1] == rs'[|alts[1..]| - 1];
        }
      }
    }
  }

  /** What the alternates would give when each is tried in turn from the state the previous
      attempt left: the reference for a loop whose attempts change state. */
  function Trials<S>(s: S, alts: seq<Addresses.Address>, k: nat, attempt: Attempt<S>)
    : (ts: seq<(S, Result<Guids.Guid>)>)
    ensures |ts| == |alts|
    ensures |alts| > 0 ==> ts[0] == attempt(s, k, alts[0])
    decreases |alts|
  {
    if |alts| == 0 then []
    else
      var p := attempt(s, k, alts[0]);
      [p] + Trials(p.0, alts[1..], k + 1, attempt)
  }

  /** The results of a list of trials. */
  function Results<S>(ts: seq<(S, Result<Guids.Guid>)>): (rs: seq<Result<Guids.Guid>>)
    ensures |rs| == |ts| && forall i :: 0 <= i < |ts| ==> rs[i] == ts[i].1
  {
    seq(|ts|, i requires 0 <= i < |ts| => ts[i].1)
  }

  /** Behind a failure, the first success is the first success of the rest, one place later. */
  lemma FirstOkAfterFailure(rs: seq<Result<Guids.Guid>>, rest: seq<Result<Guids.Guid>>)
    requires |rs| == |rest| + 1 && rs[0].Err? && rs[1..] == rest
    ensures FirstOk(rs).Some? <==> FirstOk(rest).Some?
    ensures FirstOk(rs).Some? ==> FirstOk(rs).value == FirstOk(rest).value + 1
  {
  }

  /** With state threaded through the attempts, the alternate loop stops at the first alternate
      that succeeds, leaving the state that attempt left; when all fail it throws wrapping the
      last alternate's failure, in the state the last attempt left. */
  lemma {:induction false} AlternatesThreadFirst<S>(s: S, alts: seq<Addresses.Address>, k: nat,
                                                    attempt: Attempt<S>, last: Option<Exn>)
    ensures var ts := Trials(s, alts, k, attempt);
      var r := Alternates(s, alts, k, attempt, last);
      && (FirstOk(Results(ts)).Some? ==> r == ts[FirstOk(Results(ts)).value])
      && (FirstOk(Results(ts)).None? && |alts| > 0 ==>
            r == (ts[|alts| - 1].0, Err(WebError(AlternatesFailed, Some(ts[|alts| - 1].1.error)))))
    decreases |alts|
  {
    if |alts| > 0 {
      var ts := Trials(s, alts, k, attempt);
      var p := attempt(s, k, alts[0]);
      var ts' := Trials(p.0, alts[1..], k + 1, attempt);
      assert ts == [p] + ts';
      if p.1.Err? {
        assert Alternates(s, alts, k, attempt, last) == Alternates(p.0, alts[1..], k + 1, attempt, Some(p.1.error));
        AlternatesThreadFirst(p.0, alts[1..], k + 1, attempt, Some(p.1.error));
        FirstOkAfterFailure(Results(ts), Results(ts'));
        if |alts| == 1 {
          assert ts' == [];
        } else {
          assert ts[|alts| - 1] == ts'[|alts[1..]| - 1];
        }
      } else {
        assert Results(ts)[0] == p.1;
      }
    }
  }

  // ---------------------------------------------------------------------------
  // Flash
  // ---------------------------------------------------------------------------

  /** `Flash.SendMsg` then `SendMessage`: the attempt's id when the remote call returned. The
      remote call carries the message's own `SendAttempts`, which is 0. */
  function FlashSendMsg(from: Addresses.Address, to: Addresses.Address, typeName: Option<string>, payload: Payload,
                        id: Guids.Guid, now: DateTimes.DateTime, deliver: OQ.Deliver): (r: Result<Guids.Guid>)
    ensures r.Ok? ==> r.value == id
  {
    var m := Compose(from, to, id, typeName, payload, now);
    match OQ.SendMessage(m, deliver)
    case Some(e) => Err(e)
    case None => Ok(id)
  }

  /** One attempt of a Flash send: attempt `k` to `a` builds its message with id `ids(k)`. */
  function SendTo(from: Addresses.Address, typeName: Option<string>, payload: Payload, ids: nat -> Guids.Guid,
                  now: DateTimes.DateTime, deliver: OQ.Deliver): (nat, Addresses.Address) -> Result<Guids.Guid>
  {
    (k: nat, a: Addresses.Address) => FlashSendMsg(from, a, typeName, payload, ids(k), now, deliver)
  }

  /** `Flash.Send<T>(from, dest, message, altDests)` on the serialized text: alternates are
      tried as given, and only a null list rethrows the primary failure. Attempt `k` gets id `ids(k)`, the k-th `Guid.NewGuid()`. */
  function FlashSendObject(from: Addresses.Address, dest: Addresses.Address, typeName: Option<string>, serialized: Option<string>,
                           alts: Option<seq<Addresses.Address>>, ids: nat -> Guids.Guid, now: DateTimes.DateTime,
                           deliver: OQ.Deliver, resolve: Addresses.Resolver, hostName: string): (r: Result<Guids.Guid>)
    ensures Routing.ForFlash(from, dest, resolve, hostName).Err? ==> r == Err(Routing.ForFlash(from, dest, resolve, hostName).error)
    ensures Routing.ForFlash(from, dest, resolve, hostName).Ok? ==>
              var first := FlashSendMsg(from, Routing.ForFlash(from, dest, resolve, hostName).value, typeName,
                                        Text(serialized), ids(0), now, deliver);
              && (first.Ok? ==> r == Ok(ids(0)))
              && (first.Err? && alts.None? ==> r == Err(WebError(PrimaryFailed, Some(first.error))))
              && (first.Err? && alts == Some([]) ==> r == Err(WebError(AlternatesFailed, None)))
  {
    var addr :- Routing.ForFlash(from, dest, resolve, hostName);
    var send := SendTo(from, typeName, Text(serialized), ids, now, deliver);
    Failover(((), send(0, addr)), alts, false, Stateless(send)).1
  }

  /** Once the primary has failed, `Send<T>` returns the first alternate that takes the
      message, or fails wrapping the last alternate's failure. */
  lemma FlashObjectTriesAlternates(from: Addresses.Address, dest: Addresses.Address, typeName: Option<string>,
                                   serialized: Option<string>, alts: seq<Addresses.Address>, ids: nat -> Guids.Guid,
                                   now: DateTimes.DateTime, deliver: OQ.Deliver, resolve: Addresses.Resolver,
                                   hostName: string)
    requires Routing.ForFlash(from, dest, resolve, hostName).Ok? && |alts| > 0
    requires FlashSendMsg(from, Routing.ForFlash(from, dest, resolve, hostName).value, typeName, Text(serialized),
                          ids(0), now, deliver).Err?
    ensures var rs := Outcomes(alts, 1, SendTo(from, typeName, Text(serialized), ids, now, deliver));
      var r := FlashSendObject(from, dest, typeName, serialized, Some(alts), ids, now, deliver, resolve, hostName);
      && (FirstOk(rs).Some? ==> r == rs[FirstOk(rs).value])
      && (FirstOk(rs).None? ==> r == Err(WebError(AlternatesFailed, Some(rs[|alts| - 1].error))))
  {
    AlternatesFindFirst(alts, 1, SendTo(from, typeName, Text(serialized), ids, now, deliver), None);
  }

  /** `Flash.Send(from, dest, messageType, message, altDests)` and `Flash.SendBytes` as written:
      the alternate loop sends to the primary address again, once per alternate. */
  function FlashSend(from: Addresses.Address, dest: Addresses.Address, typeName: Option<string>, payload: Payload,
                     alts: Option<seq<Addresses.Address>>, ids: nat -> Guids.Guid, now: DateTimes.DateTime,
                     deliver: OQ.Deliver, resolve: Addresses.Resolver, hostName: string): (r: Result<Guids.Guid>)
    ensures Routing.ForFlash(from, dest, resolve, hostName).Err? ==> r == Err(Routing.ForFlash(from, dest, resolve, hostName).error)
  {
    var addr :- Routing.ForFlash(from, dest, resolve, hostName);
    var send := (k: nat, a: Addresses.Address) => FlashSendMsg(from, addr, typeName, payload, ids(k), now, deliver);
    Failover(((), send(0, addr)), alts, true, Stateless(send)).1
  }

  /** The same two methods with the alternate loop sending to each alternate, as `Flash.Send<T>` does. */
  function FlashSendCorrected(from: Addresses.Address, dest: Addresses.Address, typeName: Option<string>, payload: Payload,
                              alts: Option<seq<Addresses.Address>>, ids: nat -> Guids.Guid, now: DateTimes.DateTime,
                              deliver: OQ.Deliver, resolve: Addresses.Resolver, hostName: string): (r: Result<Guids.Guid>)
    ensures Routing.ForFlash(from, dest, resolve, hostName).Err? ==> r == Err(Routing.ForFlash(from, dest, resolve, hostName).error)
  {
    var addr :- Routing.ForFlash(from, dest, resolve, hostName);
    var send := SendTo(from, typeName, payload, ids, now, deliver);
    Failover(((), send(0, addr)), alts, true, Stateless(send)).1
  }

  /** Once the primary has failed, the corrected string and byte sends return the first
      alternate that takes the message, or fail wrapping the last alternate's failure. */
  lemma FlashCorrectedTriesAlternates(from: Addresses.Address, dest: Addresses.Address, typeName: Option<string>,
                                      payload: Payload, alts: seq<Addresses.Address>, ids: nat -> Guids.Guid,
                                      now: DateTimes.DateTime, deliver: OQ.Deliver, resolve: Addresses.Resolver,
                                      hostName: string)
    requires Routing.ForFlash(from, dest, resolve, hostName).Ok? && |alts| > 0
    requires FlashSendMsg(from, Routing.ForFlash(from, dest, resolve, hostName).value, typeName, payload,
                          ids(0), now, deliver).Err?
    ensures var rs := Outcomes(alts, 1, SendTo(from, typeName, payload, ids, now, deliver));
      var r := FlashSendCorrected(from, dest, typeName, payload, Some(alts), ids, now, deliver, resolve, hostName);
      && (FirstOk(rs).Some? ==> r == rs[FirstOk(rs).value])
      && (FirstOk(rs).None? ==> r == Err(WebError(AlternatesFailed, Some(rs[|alts| - 1].error))))
  {
    AlternatesFindFirst(alts, 1, SendTo(from, typeName, payload, ids, now, deliver), None);
  }

  /** As written, when the primary's channel refuses every call the string and byte sends fail
      whatever the alternates, even when the first alternate would have taken the message;
      the corrected loop delivers it there with the second id. */
  lemma FlashIgnoresAlternates(from: Addresses.Address, dest: Addresses.Address, alt: Addresses.Address,
                               rest: seq<Addresses.Address>, typeName: Option<string>, payload: Payload,
                               ids: nat -> Guids.Guid, now: DateTimes.DateTime, resolve: Addresses.Resolver, hostName: string)
    requires Routing.ForFlash(from, dest, resolve, hostName).Ok?
    requires OQ.ChannelFor(Compose(from, alt, ids(1), typeName, payload, now)).Ok?
    requires var addr := Routing.ForFlash(from, dest, resolve, hostName).value;
      OQ.ChannelFor(Compose(from, alt, ids(1), typeName, payload, now)).value
      != OQ.ChannelFor(Compose(from, addr, ids(0), typeName, payload, now)).value
    ensures var addr := Routing.ForFlash(from, dest, resolve, hostName).value;
      var down := OQ.ChannelFor(Compose(from, addr, ids(0), typeName, payload, now)).value;
      var deliver := (c: OQ.Channel, m: Msg) => if c == down then Some(TransportError("refused")) else None;
      && FlashSend(from, dest, typeName, payload, Some([alt] + rest), ids, now, deliver, resolve, hostName).Err?
      && FlashSendCorrected(from, dest, typeName, payload, Some([alt] + rest), ids, now, deliver, resolve, hostName)
         == Ok(ids(1))
  {
    var addr := Routing.ForFlash(from, dest, resolve, hostName).value;
    var down := OQ.ChannelFor(Compose(from, addr, ids(0), typeName, payload, now)).value;
    var deliver := (c: OQ.Channel, m: Msg) => if c == down then Some(TransportError("refused")) else None;
    var alts := [alt] + rest;
    var asWritten := (k: nat, a: Addresses.Address) => FlashSendMsg(from, addr, typeName, payload, ids(k), now, deliver);
    forall k: nat ensures OQ.ChannelFor(Compose(from, addr, ids(k), typeName, payload, now)) == Ok(down) {
    }
    AlternatesFindFirst(alts, 1, asWritten, None);
    assert FirstOk(Outcomes(alts, 1, asWritten)).None?;
  }

  // ---------------------------------------------------------------------------
  // Flasher
  // ---------------------------------------------------------------------------

  /** Idle clients per pool key (`To.ToString()`), one pool per transport. */
  type Pool = map<string, nat>

  datatype Flasher = Flasher(from: Addresses.Address, npPool: Pool, tcpPool: Pool)

  /** Idle clients under `key`. */
  function Idle(p: Pool, key: string): nat
  {
    if key in p then p[key] else 0
  }

  /** `Request` then `Release` or dispose: a pooled client is taken if one is idle, else a new
      one is made; it goes back to the pool only if the call succeeded. */
  function Cycle(p: Pool, key: string, ok: bool): (r: Pool)
    ensures ok ==> Idle(r, key) == (if Idle(p, key) == 0 then 1 else Idle(p, key))
    ensures !ok ==> Idle(r, key) == (if Idle(p, key) == 0 then 0 else Idle(p, key) - 1)
    ensures forall k :: k != key ==> Idle(r, k) == Idle(p, k)
  {
    var taken := if Idle(p, key) > 0 then Idle(p, key) - 1 else 0;
    p[key := if ok then taken + 1 else taken]
  }

  /** `Flasher.SendMessage(message)`: the pooled client of the chosen transport makes the remote
      call with attempt number 1. */
  function FlasherSendMessage(f: Flasher, m: Msg, deliver: OQ.Deliver): (r: (Flasher, Option<Exn>))
    ensures r.0.from == f.from
  {
    if m.to.None? then (f, Some(NullReference))
    else
      var key := Addresses.ToString(m.to.value);
      var e := OQ.SendMessage(m.(sendAttempts := 1), deliver);
      match OQ.ChannelFor(m)
      case Err(_) => (f, e)
      case Ok(c) =>
        if c.PipeTo? then (f.(npPool := Cycle(f.npPool, key, e.None?)), e)
        else (f.(tcpPool := Cycle(f.tcpPool, key, e.None?)), e)
  }

  /** A Flasher send is the queue's `SendMessage` of the same message numbered as attempt 1, and
      only the pool of the chosen transport, under the destination's printed address, changes:
      it keeps or gains a client on success and loses the one it used on failure. */
  lemma FlasherPoolDiscipline(f: Flasher, m: Msg, deliver: OQ.Deliver)
    requires m.to.Some? && OQ.ChannelFor(m).Ok?
    ensures var (f', e) := FlasherSendMessage(f, m, deliver);
      var key := Addresses.ToString(m.to.value);
      var pipe := OQ.ChannelFor(m).value.PipeTo?;
      && e == OQ.SendMessage(m.(sendAttempts := 1), deliver)
      && (pipe ==> f'.tcpPool == f.tcpPool && f'.npPool == Cycle(f.npPool, key, e.None?))
      && (!pipe ==> f'.npPool == f.npPool && f'.tcpPool == Cycle(f.tcpPool, key, e.None?))
      && (e.None? ==> Idle(if pipe then f'.npPool else f'.tcpPool, key) >= 1)
  {
  }

  /** One Flasher attempt: compose with the Flasher's sender and send through the pools. */
  function FlasherAttempt(typeName: Option<string>, payload: Payload, ids: nat -> Guids.Guid,
                          now: DateTimes.DateTime, deliver: OQ.Deliver): Attempt<Flasher>
  {
    (f: Flasher, k: nat, a: Addresses.Address) =>
      var (f', e) := FlasherSendMessage(f, Compose(f.from, a, ids(k), typeName, payload, now), deliver);
      (f', if e.Some? then Err(e.value) else Ok(ids(k)))
  }

  /** `Flasher.Send<T>`, `Send` and `SendBytes`: the primary, then each alternate; a null or
      empty list rethrows the primary failure. */
  function FlasherSend(f: Flasher, dest: Addresses.Address, typeName: Option<string>, payload: Payload,
                       alts: Option<seq<Addresses.Address>>, ids: nat -> Guids.Guid, now: DateTimes.DateTime,
                       deliver: OQ.Deliver, resolve: Addresses.Resolver, hostName: string): (r: (Flasher, Result<Guids.Guid>))
    ensures Routing.ForFlasher(f.from, dest, resolve, hostName).Err? ==>
              r == (f, Err(Routing.ForFlasher(f.from, dest, resolve, hostName).error))
    ensures Routing.ForFlasher(f.from, dest, resolve, hostName).Ok? ==>
              var first := FlasherSendMessage(f, Compose(f.from, Routing.ForFlasher(f.from, dest, resolve, hostName).value,
                                                         ids(0), typeName, payload, now), deliver);
              && (first.1.None? ==> r == (first.0, Ok(ids(0))))
              && (first.1.Some? && (alts.None? || |alts.value| == 0) ==>
                    r == (first.0, Err(WebError(PrimaryFailed, first.1))))
  {
    match Routing.ForFlasher(f.from, dest, resolve, hostName)
    case Err(e) => (f, Err(e))
    case Ok(addr) =>
      var attempt := FlasherAttempt(typeName, payload, ids, now, deliver);
      Failover(attempt(f, 0, addr), alts, true, attempt)
  }

  /** Once the primary has failed, a Flasher send tries the alternates in order, each from the
      pools the previous attempt left: it returns the first alternate's id that succeeds, or
      throws wrapping the last alternate's failure. */
  lemma FlasherTriesAlternates(f: Flasher, dest: Addresses.Address, typeName: Option<string>, payload: Payload,
                               alts: seq<Addresses.Address>, ids: nat -> Guids.Guid, now: DateTimes.DateTime,
                               deliver: OQ.Deliver, resolve: Addresses.Resolver, hostName: string)
    requires Routing.ForFlasher(f.from, dest, resolve, hostName).Ok? && |alts| > 0
    requires FlasherSendMessage(f, Compose(f.from, Routing.ForFlasher(f.from, dest, resolve, hostName).value,
                                           ids(0), typeName, payload, now), deliver).1.Some?
    ensures var first := FlasherSendMessage(f, Compose(f.from, Routing.ForFlasher(f.from, dest, resolve, hostName).value,
                                                       ids(0), typeName, payload, now), deliver);
      var ts := Trials(first.0, alts, 1, FlasherAttempt(typeName, payload, ids, now, deliver));
      var r := FlasherSend(f, dest, typeName, payload, Some(alts), ids, now, deliver, resolve, hostName);
      && (FirstOk(Results(ts)).Some? ==> r == ts[FirstOk(Results(ts)).value])
      && (FirstOk(Results(ts)).None? ==>
            r == (ts[|alts| - 1].0, Err(WebError(AlternatesFailed, Some(ts[|alts| - 1].1.error)))))
  {
    var first := FlasherSendMessage(f, Compose(f.from, Routing.ForFlasher(f.from, dest, resolve, hostName).value,
                                               ids(0), typeName, payload, now), deliver);
    AlternatesThreadFirst(first.0, alts, 1, FlasherAttempt(typeName, payload, ids, now, deliver), None);
  }

  /** Each alternate's outcome in a Flasher send is its id, or the exception its pooled send raised. */
  lemma FlasherTrialOutcome(f: Flasher, a: Addresses.Address, k: nat, typeName: Option<string>, payload: Payload,
                            ids: nat -> Guids.Guid, now: DateTimes.DateTime, deliver: OQ.Deliver)
    ensures var e := FlasherSendMessage(f, Compose(f.from, a, ids(k), typeName, payload, now), deliver);
      var t := FlasherAttempt(typeName, payload, ids, now, deliver)(f, k, a);
      && t.0 == e.0
      && (e.1.None? <==> t.1 == Ok(ids(k)))
      && (e.1.Some? ==> t.1 == Err(e.1.value))
  {
  }
}
