// Notification transitions with persistent deduplication:
// internal/services/notification/service.go.
module Notification {
  import opened Domain
  import opened Text
  import Worker

  type Key = (string, string, string) // subject type, subject id, event type

  datatype EventState = EventState(fingerprint: string, level: int, lastSentAt: Time)

  type States = map<Key, EventState>

  const WARNING := 1
  const TERMINAL := 2
  const QUEUE_CAPACITY := 64
  const CORE_ERROR_COOLDOWN: Time := 300_000_000_000

  const QUOTA: string := "quota"
  const EXPIRY: string := "expiry"

  datatype Settings = Settings(smtpEnabled: bool, telegramEnabled: bool, quotaWarningPercent: int, expiryWarningHours: int)

  datatype Message = Message(subject: string, body: string)

  datatype Faults = Faults(readFails: bool, deleteFails: bool, saveFails: bool)

  // ---- one observation ------------------------------------------------------------

  // room: a channel is enabled and the queue is not full
  datatype Obs = Obs(key: Key, fingerprint: string, level: int, at: Time, room: bool, f: Faults)

  datatype Observed = Observed(states: States, emitted: bool, ok: bool)

  // The transition was already reported at this level or above.
  predicate Reported(states: States, o: Obs) {
    o.key in states && states[o.key].fingerprint == o.fingerprint && states[o.key].level >= o.level
  }

  function Observe(states: States, o: Obs): Observed {
    if o.level == 0 then
      if o.f.readFails then Observed(states, false, false)
      else if o.key !in states then Observed(states, false, true)
      else if o.f.deleteFails then Observed(states, false, false)
      else Observed(states - {o.key}, false, true)
    else if o.f.readFails then Observed(states, false, false)
    else if Reported(states, o) then Observed(states, false, true)
    else if !o.room then Observed(states, false, true)
    else if o.f.saveFails then Observed(states, true, false)
    else Observed(states[o.key := EventState(o.fingerprint, o.level, o.at)], true, true)
  }

  // ---- a client's two levels ------------------------------------------------------

  // int() of a quotient: truncated toward zero
  function Quotient(a: int, b: int): int
    requires b > 0
  {
    if a >= 0 then a / b else -(-a / b)
  }

  function QuotaLevel(c: Client, s: Settings): int {
    if c.totalQuota <= 0 then 0
    else if c.QuotaExceeded() then TERMINAL
    else if s.quotaWarningPercent > 0 && Quotient(100 * c.UsedTotal(), c.totalQuota) >= s.quotaWarningPercent then WARNING
    else 0
  }

  const HOUR: Time := 3_600_000_000_000

  function ExpiryLevel(c: Client, now: Time, s: Settings): int {
    if c.expiry.None? then 0
    else if c.IsExpired(now) then TERMINAL
    else if s.expiryWarningHours > 0 && c.expiry.value - now <= s.expiryWarningHours * HOUR then WARNING
    else 0
  }

  // A terminal notification is due exactly for the clients enforcement disables.
  lemma {:induction false} TerminalIffMustExpire(c: Client, now: Time, s: Settings)
    requires c.enabled && c.status == Active
    ensures (QuotaLevel(c, s) == TERMINAL || ExpiryLevel(c, now, s) == TERMINAL) <==> Worker.MustExpire(c, now)
    ensures QuotaLevel(c, s) == TERMINAL <==> c.totalQuota > 0 && c.usedUp + c.usedDown >= c.totalQuota
    ensures ExpiryLevel(c, now, s) == TERMINAL <==> c.expiry.Some? && now > c.expiry.value
  {
  }

  // The truncated percentage warns exactly from the configured share of the quota on.
  lemma {:induction false} QuotaLevelIs(c: Client, s: Settings)
    ensures var used := c.usedUp + c.usedDown;
            QuotaLevel(c, s) ==
            if c.totalQuota > 0 && used >= c.totalQuota then 2
            else if c.totalQuota > 0 && s.quotaWarningPercent > 0 && 100 * used >= s.quotaWarningPercent * c.totalQuota then 1
            else 0
  {
    if c.totalQuota > 0 && s.quotaWarningPercent > 0 {
      if c.UsedTotal() >= 0 {
        QuotientAtLeast(100 * c.UsedTotal(), c.totalQuota, s.quotaWarningPercent);
      } else {
        ScaleUp(0, s.quotaWarningPercent, c.totalQuota);
      }
    }
  }

  // The expiry warns within the configured number of hours before it.
  lemma {:induction false} ExpiryLevelIs(c: Client, now: Time, s: Settings)
    ensures ExpiryLevel(c, now, s) ==
            if c.expiry.None? then 0
            else if now > c.expiry.value then 2
            else if s.expiryWarningHours > 0 && now + s.expiryWarningHours * (60 * 60 * 1_000_000_000) >= c.expiry.value then 1
            else 0
  {
  }

  lemma {:induction false} QuotientAtLeast(a: int, q: int, n: int)
    requires a >= 0 && q > 0
    ensures a / q >= n <==> a >= n * q
  {
    var x := a / q;
    assert q * x <= a < q * x + q;
    if x >= n {
      ScaleUp(n, x, q);
    } else {
      ScaleUp(x + 1, n, q);
    }
  }

  // More usage, or a later moment, never lowers a level.
  lemma {:induction false} LevelsOnlyRise(c: Client, used: int, now: Time, later: Time, s: Settings)
    requires used >= c.usedDown >= 0 && c.usedUp >= 0 && later >= now
    ensures QuotaLevel(c.(usedDown := used), s) >= QuotaLevel(c, s)
    ensures ExpiryLevel(c, later, s) >= ExpiryLevel(c, now, s)
  {
    var d := c.(usedDown := used);
    if c.totalQuota > 0 {
      QuotientMonotone(100 * c.UsedTotal(), 100 * d.UsedTotal(), c.totalQuota);
    }
  }

  lemma {:induction false} QuotientMonotone(a: int, b: int, q: int)
    requires 0 <= a <= b && q > 0
    ensures a / q <= b / q
  {
    var x, y := a / q, b / q;
    assert q * x <= a && b < q * y + q;
    CancelFactor(x, y + 1, q);
  }

  lemma {:induction false} CancelFactor(x: int, y: int, q: int)
    requires q > 0 && q * x < q * y
    ensures x < y
  {
    if x >= y {
      ScaleUp(y, x, q);
    }
  }

  lemma {:induction false} ScaleUp(x: int, y: int, q: int)
    requires q > 0 && x <= y
    ensures q * x <= q * y
  {
  }

  class Service {
    const expiryText: Time -> string // UTC().Format(time.RFC3339Nano)
    var states: States
    var queue: seq<Message>
    ghost var emitted: seq<Message> // everything ever put into the queue
    ghost var delivered: seq<Message> // everything ever taken from it

    // Every message put into the queue is delivered once, in order, or waits in it.
    ghost predicate Valid()
      reads this
    {
      emitted == delivered + queue && |queue| <= 64
    }

    constructor (expiryText: Time -> string, states: States)
      ensures Valid() && this.expiryText == expiryText && this.states == states && queue == [] && delivered == []
    {
      this.expiryText, this.states, queue, emitted, delivered := expiryText, states, [], [], [];
    }

    method Enqueue(s: Settings, message: Message) returns (ok: bool)
      requires Valid()
      modifies this`queue, this`emitted
      ensures Valid()
      ensures ok <==> (s.smtpEnabled || s.telegramEnabled) && |old(queue)| < 64
      ensures queue == (if ok then old(queue) + [message] else old(queue))
      ensures emitted == (if ok then old(emitted) + [message] else old(emitted))
    {
      if !s.smtpEnabled && !s.telegramEnabled {
        return false;
      }
      if |queue| < QUEUE_CAPACITY {
        queue := queue + [message];
        emitted := emitted + [message];
        return true;
      }
      ok := false;
    }

    // The background worker takes the oldest delivery.
    method TakeDelivery() returns (message: Option<Message>)
      requires Valid()
      modifies this`queue, this`delivered
      ensures Valid()
      ensures message.None? <==> old(queue) == []
      ensures message.Some? ==> old(queue) == [message.value] + queue && delivered == old(delivered) + [message.value]
      ensures message.None? ==> queue == old(queue) && delivered == old(delivered)
    {
      if queue == [] {
        return None;
      }
      message := Some(queue[0]);
      delivered := delivered + [queue[0]];
      queue := queue[1..];
    }

    method ObserveEvent(s: Settings, key: Key, fingerprint: string, level: int, message: Message, now: Time, f: Faults)
      returns (ok: bool)
      requires Valid()
      modifies this`states, this`queue, this`emitted
      ensures Valid()
      ensures var room := (s.smtpEnabled || s.telegramEnabled) && |old(queue)| < 64;
              var r := Observe(old(states), Obs(key, fingerprint, level, now, room, f));
              && states == r.states && ok == r.ok
              && queue == (if r.emitted then old(queue) + [message] else old(queue))
              && emitted == (if r.emitted then old(emitted) + [message] else old(emitted))
    {
      if level == 0 {
        if f.readFails {
          return false;
        }
        if key !in states {
          return true;
        }
        if f.deleteFails {
          return false;
        }
        states := states - {key};
        return true;
      }
      if !f.readFails && key in states && states[key].fingerprint == fingerprint && states[key].level >= level {
        return true;
      }
      if f.readFails {
        return false;
      }
      var queued := Enqueue(s, message);
      if !queued {
        return true;
      }
      if f.saveFails {
        return false;
      }
      states := states[key := EventState(fingerprint, level, now)];
      ok := true;
    }

    function QuotaObs(c: Client, s: Settings, room: bool, at: Time, f: Faults): Obs {
      Obs(("client", FormatInt(c.id), "quota"), FormatInt(c.totalQuota), QuotaLevel(c, s), at, room, f)
    }

    function ExpiryObs(c: Client, now: Time, s: Settings, room: bool, at: Time, f: Faults): Obs {
      Obs(("client", FormatInt(c.id), "expiry"), if c.expiry.None? then "none" else expiryText(c.expiry.value),
          ExpiryLevel(c, now, s), at, room, f)
    }

    // settings: None when they cannot be loaded. A failed quota observation
    // leaves the expiry to the next call.
    method ObserveClient(settings: Option<Settings>, c: Client, now: Time, at: Time, f: Faults, g: Faults) returns (ok: bool)
      requires Valid()
      modifies this`states, this`queue, this`emitted
      ensures Valid()
      ensures settings.None? ==> !ok && states == old(states) && queue == old(queue)
      ensures settings.Some? ==>
                var s := settings.value;
                var channel := s.smtpEnabled || s.telegramEnabled;
                var first := Observe(old(states), QuotaObs(c, s, channel && |old(queue)| < 64, at, f));
                var quota := if first.emitted then [QuotaMessage(c, s)] else [];
                var second := Observe(first.states, ExpiryObs(c, now, s, channel && |old(queue) + quota| < 64, at, g));
                var expiry := if first.ok && second.emitted then [ExpiryMessage(c, now, s)] else [];
                && ok == (first.ok && second.ok)
                && states == (if first.ok then second.states else first.states)
                && queue == old(queue) + quota + expiry
    {
      if settings.None? {
        return false;
      }
      var s := settings.value;
      var quotaLevel := QuotaLevel(c, s);
      ok := ObserveEvent(s, ("client", FormatInt(c.id), QUOTA), FormatInt(c.totalQuota), quotaLevel, QuotaMessage(c, s), at, f);
      if !ok {
        return;
      }
      var fingerprint := "none";
      if c.expiry.Some? {
        fingerprint := expiryText(c.expiry.value);
      }
      var expiryLevel := ExpiryLevel(c, now, s);
      ok := ObserveEvent(s, ("client", FormatInt(c.id), EXPIRY), fingerprint, expiryLevel, ExpiryMessage(c, now, s), at, g);
    }

    // hash: the digest of the redacted error; checked and saved: the two clock readings.
    method NotifyFailure(settings: Option<Settings>, eventType: string, hash: string, body: string, checked: Time, saved: Time, f: Faults)
      requires Valid()
      modifies this`states, this`queue, this`emitted
      ensures Valid()
      ensures settings.None? ==> states == old(states) && emitted == old(emitted)
      ensures settings.Some? ==>
                var room := (settings.value.smtpEnabled || settings.value.telegramEnabled) && |old(queue)| < 64;
                var r := Fail(old(states), Failure(eventType, hash, checked, saved, room, f));
                states == r.0 && emitted == if r.1 then old(emitted) + [Message("Shilka core failure", body)] else old(emitted)
    {
      if settings.None? {
        return;
      }
      var s := settings.value;
      if !s.smtpEnabled && !s.telegramEnabled {
        return;
      }
      var key := CoreKey(eventType);
      if !f.readFails && key in states && states[key].fingerprint == hash && checked - states[key].lastSentAt < CORE_ERROR_COOLDOWN {
        return;
      }
      if f.readFails {
        return;
      }
      var queued := Enqueue(s, Message("Shilka core failure", body));
      if !queued || f.saveFails {
        return;
      }
      states := states[key := EventState(hash, TERMINAL, saved)];
    }
  }

  function QuotaMessage(c: Client, s: Settings): Message {
    Message("Shilka client quota", ClientMessage(c.name, "traffic quota", QuotaLevel(c, s)))
  }

  function ExpiryMessage(c: Client, now: Time, s: Settings): Message {
    Message("Shilka client expiry", ClientMessage(c.name, "expiry", ExpiryLevel(c, now, s)))
  }

  // The two messages name the client and say which limit it is at or near.
  lemma {:induction false} MessagesTell(c: Client, now: Time, s: Settings)
    requires c.totalQuota > 0 && c.expiry.Some?
    ensures QuotaMessage(c, s).body ==
            if c.usedUp + c.usedDown >= c.totalQuota then "Client \"" + c.name + "\" reached terminal " + "traffic quota" + " state."
            else "Client \"" + c.name + "\" crossed the " + "traffic quota" + " warning threshold."
    ensures ExpiryMessage(c, now, s).body ==
            if now > c.expiry.value then "Client \"" + c.name + "\" reached terminal " + "expiry" + " state."
            else "Client \"" + c.name + "\" crossed the " + "expiry" + " warning threshold."
    ensures QuotaMessage(c, s).subject == "Shilka client quota" && ExpiryMessage(c, now, s).subject == "Shilka client expiry"
  {
    hide Quotient;
  }

  function ClientMessage(name: string, metric: string, level: int): string {
    if level == TERMINAL then "Client \"" + name + "\" reached terminal " + metric + " state."
    else "Client \"" + name + "\" crossed the " + metric + " warning threshold."
  }

  // ---- histories --------------------------------------------------------------------

  function After(states: States, os: seq<Obs>): States {
    if |os| == 0 then states else Observe(After(states, os[..|os| - 1]), os[|os| - 1]).states
  }

  predicate EmittedAt(states: States, os: seq<Obs>, i: nat)
    requires i < |os|
  {
    Observe(After(states, os[..i]), os[i]).emitted
  }

  // Between the two observations nothing resets the key: no level 0, no other fingerprint.
  ghost predicate NoReset(os: seq<Obs>, i: nat, j: nat)
    requires i < j < |os|
  {
    forall m :: i < m < j && os[m].key == os[i].key ==> os[m].level != 0 && os[m].fingerprint == os[i].fingerprint
  }

  lemma {:induction false} AfterOneMore(states: States, os: seq<Obs>, n: nat)
    requires n < |os|
    ensures After(states, os[..n + 1]) == Observe(After(states, os[..n]), os[n]).states
  {
    assert os[..n + 1][..n] == os[..n];
  }

  // Two states agree on one key.
  ghost predicate Agree(s: States, t: States, k: Key) {
    (k in s <==> k in t) && (k in s ==> s[k] == t[k])
  }

  lemma {:induction false} OtherKeyKept(s: States, o: Obs, k: Key)
    requires o.key != k
    ensures Agree(Observe(s, o).states, s, k)
  {
  }

  lemma {:induction false} SameAtOwnKey(s: States, t: States, o: Obs)
    requires Agree(s, t, o.key)
    ensures Observe(s, o).emitted == Observe(t, o).emitted
    ensures Agree(Observe(s, o).states, Observe(t, o).states, o.key)
  {
  }

  lemma {:induction false} EmissionRemembered(s: States, o: Obs)
    requires Observe(s, o).emitted && !o.f.saveFails
    ensures Reported(Observe(s, o).states, o)
  {
  }

  lemma {:induction false} MemoryKept(s: States, o: Obs, x: Obs)
    requires Reported(s, o) && (x.key == o.key ==> x.level != 0 && x.fingerprint == o.fingerprint)
    ensures Reported(Observe(s, x).states, o)
  {
  }

  // From an emission on, and until a reset, the state remembers at least its level.
  lemma {:induction false} EmissionIsRemembered(states: States, os: seq<Obs>, i: nat, j: nat)
    requires i < j < |os| && EmittedAt(states, os, i) && !os[i].f.saveFails && NoReset(os, i, j)
    ensures Reported(After(states, os[..j]), os[i])
    decreases j
  {
    AfterOneMore(states, os, j - 1);
    hide Observe, Reported, After;
    if i < j - 1 {
      EmissionIsRemembered(states, os, i, j - 1);
      MemoryKept(After(states, os[..j - 1]), os[i], os[j - 1]);
    } else {
      EmissionRemembered(After(states, os[..i]), os[i]);
    }
  }

  // Between resets the emitted levels of a key strictly increase.
  lemma {:induction false} LevelsIncrease(states: States, os: seq<Obs>, i: nat, j: nat)
    requires i < j < |os| && os[j].key == os[i].key && os[j].fingerprint == os[i].fingerprint
    requires EmittedAt(states, os, i) && EmittedAt(states, os, j) && !os[i].f.saveFails && NoReset(os, i, j)
    ensures os[i].level < os[j].level
  {
    EmissionIsRemembered(states, os, i, j);
  }

  // So there is at most one warning and one terminal notification between resets.
  lemma {:induction false} AtMostOnePerLevel(states: States, os: seq<Obs>, i: nat, j: nat)
    requires i < j < |os| && os[j].key == os[i].key && os[j].fingerprint == os[i].fingerprint && os[i].level == os[j].level
    requires EmittedAt(states, os, i) && !os[i].f.saveFails && NoReset(os, i, j)
    ensures !EmittedAt(states, os, j)
  {
    EmissionIsRemembered(states, os, i, j);
  }

  // Nothing gets through for os[i]'s key from i up to j, and nothing resets it:
  // its observations find no room in the queue, or the state cannot be read.
  ghost predicate HeldBack(os: seq<Obs>, i: nat, j: nat)
    requires i < j <= |os|
  {
    forall m :: i <= m < j && os[m].key == os[i].key ==> os[m].level != 0 && (!os[m].room || os[m].f.readFails)
  }

  // A full queue only delays: however many observations of its key find no room,
  // a transition is emitted at the first that does, unless it was undone meanwhile.
  lemma {:induction false} FullQueueOnlyDelays(states: States, os: seq<Obs>, i: nat, j: nat)
    requires i < j < |os| && os[j].key == os[i].key && os[j].fingerprint == os[i].fingerprint && os[j].level >= os[i].level > 0
    requires !Reported(After(states, os[..i]), os[i])
    requires HeldBack(os, i, j) && os[j].room && !os[j].f.readFails
    ensures forall m :: i <= m < j && os[m].key == os[i].key ==> !EmittedAt(states, os, m)
    ensures EmittedAt(states, os, j)
  {
    KeyUntouched(states, os, i, j);
    hide After;
    forall m | i <= m < j && os[m].key == os[i].key
      ensures !EmittedAt(states, os, m)
    {
    }
  }

  lemma {:induction false} KeyUntouched(states: States, os: seq<Obs>, i: nat, j: nat)
    requires i < j <= |os| && HeldBack(os, i, j)
    ensures Agree(After(states, os[..j]), After(states, os[..i]), os[i].key)
    decreases j
  {
    AfterOneMore(states, os, j - 1);
    HeldBackStep(After(states, os[..j - 1]), os, i, j);
    hide After, Observe, HeldBack;
    if i < j - 1 {
      HeldBackBefore(os, i, j);
      KeyUntouched(states, os, i, j - 1);
    }
  }

  lemma {:induction false} HeldBackStep(s: States, os: seq<Obs>, i: nat, j: nat)
    requires i < j <= |os| && HeldBack(os, i, j)
    ensures Agree(Observe(s, os[j - 1]).states, s, os[i].key)
  {
    if os[j - 1].key != os[i].key {
      OtherKeyKept(s, os[j - 1], os[i].key);
    }
  }

  lemma {:induction false} HeldBackBefore(os: seq<Obs>, i: nat, j: nat)
    requires i < j - 1 < |os| && HeldBack(os, i, j)
    ensures HeldBack(os, i, j - 1)
  {
  }

  // The observations of one key, in order.
  function Only(os: seq<Obs>, k: Key): seq<Obs> {
    if |os| == 0 then [] else Only(os[..|os| - 1], k) + if os[|os| - 1].key == k then [os[|os| - 1]] else []
  }

  // Keys never interfere: what happens at a key is what would happen if no
  // other key were ever observed.
  lemma {:induction false} KeysIndependent(states: States, os: seq<Obs>, k: Key)
    ensures Agree(After(states, os), After(states, Only(os, k)), k)
    ensures |os| > 0 && os[|os| - 1].key == k ==>
              EmittedAt(states, os, |os| - 1) == EmittedAt(states, Only(os, k), |Only(os, k)| - 1)
  {
    hide Observe;
    if |os| > 0 {
      var front, last := os[..|os| - 1], os[|os| - 1];
      KeysIndependent(states, front, k);
      if last.key == k {
        assert Only(os, k)[..|Only(os, k)| - 1] == Only(front, k);
        SameAtOwnKey(After(states, front), After(states, Only(front, k)), last);
      } else {
        assert Only(os, k) == Only(front, k);
        OtherKeyKept(After(states, front), last, k);
      }
    }
  }

  // ---- core failures --------------------------------------------------------------------

  function CoreKey(eventType: string): Key {
    ("core", "global", eventType)
  }

  datatype Failure = Failure(eventType: string, hash: string, checked: Time, saved: Time, room: bool, f: Faults)

  function Fail(states: States, x: Failure): (States, bool) {
    var k := CoreKey(x.eventType);
    if x.f.readFails then (states, false)
    else if k in states && states[k].fingerprint == x.hash && x.checked - states[k].lastSentAt < CORE_ERROR_COOLDOWN then (states, false)
    else if !x.room then (states, false)
    else if x.f.saveFails then (states, true)
    else (states[k := EventState(x.hash, TERMINAL, x.saved)], true)
  }

  // A failure reported again is told exactly when the reason is new or five
  // minutes have passed; it touches no other key.
  lemma {:induction false} FailureRepeatedIff(states: States, x: Failure, y: Failure)
    requires Fail(states, x).1 && !x.f.saveFails && y.eventType == x.eventType
    ensures Fail(Fail(states, x).0, y).1 <==>
            !y.f.readFails && y.room && (y.hash != x.hash || y.checked - x.saved >= 5 * 60 * 1_000_000_000)
    ensures Fail(states, x).0 == states[("core", "global", x.eventType) := EventState(x.hash, 2, x.saved)]
  {
  }

  // The first failure of its type is always told if there is room.
  lemma {:induction false} FirstFailureTold(states: States, x: Failure)
    requires ("core", "global", x.eventType) !in states
    ensures Fail(states, x).1 <==> !x.f.readFails && x.room
    ensures !Fail(states, x).1 || x.f.saveFails ==> Fail(states, x).0 == states
  {
  }

  function AfterFailures(states: States, xs: seq<Failure>): States {
    if |xs| == 0 then states else Fail(AfterFailures(states, xs[..|xs| - 1]), xs[|xs| - 1]).0
  }

  predicate FailureEmitted(states: States, xs: seq<Failure>, i: nat)
    requires i < |xs|
  {
    Fail(AfterFailures(states, xs[..i]), xs[i]).1
  }

  // The clock does not run backwards.
  ghost predicate Timed(xs: seq<Failure>) {
    && (forall i :: 0 <= i < |xs| ==> xs[i].checked <= xs[i].saved)
    && (forall i, j :: 0 <= i < j < |xs| ==> xs[i].saved <= xs[j].checked)
  }

  // No other error of this event type was reported in between.
  ghost predicate SameCause(xs: seq<Failure>, i: nat, j: nat)
    requires i < j < |xs|
  {
    forall m :: i < m < j && xs[m].eventType == xs[i].eventType ==> xs[m].hash == xs[i].hash
  }

  lemma {:induction false} LastSentKnown(states: States, xs: seq<Failure>, i: nat, j: nat)
    requires i < j < |xs| && Timed(xs) && SameCause(xs, i, j) && FailureEmitted(states, xs, i) && !xs[i].f.saveFails
    ensures var (s, k) := (AfterFailures(states, xs[..j]), CoreKey(xs[i].eventType));
            k in s && s[k].fingerprint == xs[i].hash && s[k].lastSentAt >= xs[i].saved
    decreases j
  {
    assert xs[..j][..j - 1] == xs[..j - 1];
    if i < j - 1 {
      LastSentKnown(states, xs, i, j - 1);
      assert xs[i].saved <= xs[j - 1].checked <= xs[j - 1].saved;
    }
  }

  // Repeated identical failures of one event type are reported at least five
  // minutes apart.
  lemma {:induction false} FailuresFiveMinutesApart(states: States, xs: seq<Failure>, i: nat, j: nat)
    requires i < j < |xs| && xs[j].eventType == xs[i].eventType && xs[j].hash == xs[i].hash
    requires Timed(xs) && SameCause(xs, i, j) && !xs[i].f.saveFails
    requires FailureEmitted(states, xs, i) && FailureEmitted(states, xs, j)
    ensures xs[j].checked - xs[i].saved >= 5 * 60 * 1_000_000_000 // nanoseconds
  {
    LastSentKnown(states, xs, i, j);
  }
}
