/** The gateway beside the modem: its ledger, its own limits, and the handling of one message. */
module SmsGateways {
  import opened Options
  import opened Lists
  import opened Text

  const KEEP_IDS := 604800.0

  datatype Send = Send(at: real, hash: string)

  /** What the ledger keeps on disk. */
  datatype LedgerState = LedgerState(sends: seq<Send>, done: map<string, real>)

  /** `allow` is the destination mask; `hash` the short hash a number is kept as. */
  datatype Limits = Limits(allow: string -> bool, hash: string -> string, maxSms: int, window: real,
                           maxPerNumber: int, maxLength: int)

  /** As the server offers it; None where a field is missing or has another type. */
  datatype Message = Message(id: string, dest: Option<string>, text: Option<string>, expiresAt: Option<real>)

  function Recent(sends: seq<Send>, now: real, window: real): seq<Send> {
    Filter((s: Send) => s.at > now - window, sends)
  }

  function Count(l: LedgerState, now: real, window: real): nat {
    |Recent(l.sends, now, window)|
  }

  function CountNumber(l: LedgerState, hash: string, now: real, window: real): nat {
    |Filter((s: Send) => s.hash == hash, Recent(l.sends, now, window))|
  }

  function Remembered(done: map<string, real>, now: real): map<string, real> {
    map id | id in done && done[id] > now - KEEP_IDS :: done[id]
  }

  function Record(l: LedgerState, hash: string, id: string, now: real, window: real): LedgerState {
    LedgerState(Recent(l.sends, now, window) + [Send(now, hash)], Remembered(l.done, now)[id := now])
  }

  predicate GoodText(text: Option<string>, limits: Limits) {
    text.Some? && text.value != "" && |text.value| <= limits.maxLength && PrintableAscii(text.value)
  }

  /** None if the message may be sent, else a short reason. */
  function Check(limits: Limits, l: LedgerState, dest: Option<string>, text: Option<string>, now: real): Option<string> {
    if dest.None? || !limits.allow(dest.value) then Some("number_not_allowed")
    else if !GoodText(text, limits) then Some("bad_text")
    else if Count(l, now, limits.window) >= limits.maxSms then Some("limit_reached")
    else if CountNumber(l, limits.hash(dest.value), now, limits.window) >= limits.maxPerNumber then
      Some("number_limit_reached")
    else None
  }

  /** What is reported to the server. */
  datatype Report = Report(id: string, status: string, reason: string)

  /** What is decided about a message before the policy is asked. */
  datatype Vetting = Nameless | Known | Stale | Fresh

  function Vet(l: LedgerState, m: Message, now: real): Vetting {
    if m.id == "" then Nameless
    else if m.id in l.done then Known
    else if m.expiresAt.Some? && m.expiresAt.value <= now then Stale
    else Fresh
  }

  /** What one call of the message handler does: its answer, its reports, what it gave the modem, the ledger after. */
  datatype Handling = Handling(outcome: string, reports: seq<Report>, attempted: bool, ledger: LedgerState)

  /** One message, with the three readings of the clock and whether the modem would succeed. */
  function Handle(limits: Limits, l: LedgerState, m: Message, t1: real, t2: real, t3: real, modemOk: bool): Handling {
    match Vet(l, m, t1)
    case Nameless => Handling("bad_message", [], false, l)
    case Known => Handling("duplicate", [Report(m.id, "sent", "duplicate_suppressed")], false, l)
    case Stale => Handling("expired", [Report(m.id, "rejected", "expired")], false, l)
    case Fresh =>
      match Check(limits, l, m.dest, m.text, t2)
      case Some(reason) => Handling(reason, [Report(m.id, "rejected", reason)], false, l)
      case None =>
        var after := Record(l, limits.hash(m.dest.value), m.id, t3, limits.window);
        if modemOk then Handling("sent", [Report(m.id, "sent", "")], true, after)
        else Handling("failed", [Report(m.id, "failed", "modem_error")], true, after)
  }

  class Ledger {
    const window: real
    var sends: seq<Send>
    var done: map<string, real>

    function State(): LedgerState
      reads this
    {
      LedgerState(sends, done)
    }

    constructor (window: real, saved: LedgerState)
      ensures this.window == window && State() == saved
    {
      this.window, sends, done := window, saved.sends, saved.done;
    }

    /** How many sends the window holds, and how many of them went to a number. */
    method Counts(hash: string, now: real) returns (all: nat, number: nat)
      ensures all == Count(State(), now, window) && number == CountNumber(State(), hash, now, window)
    {
      all, number := 0, 0;
      var recent, ofNumber := (s: Send) => s.at > now - window, (s: Send) => s.hash == hash;
      for i := 0 to |sends|
        invariant all == |Filter(recent, sends[..i])|
        invariant number == |Filter(ofNumber, Filter(recent, sends[..i]))|
      {
        assert sends[..i + 1] == sends[..i] + [sends[i]];
        FilterConcat(recent, sends[..i], [sends[i]]);
        FilterConcat(ofNumber, Filter(recent, sends[..i]), Filter(recent, [sends[i]]));
        if sends[i].at > now - window {
          all := all + 1;
          if sends[i].hash == hash { number := number + 1; }
        }
      }
      assert sends[..|sends|] == sends;
    }

    method RecordSend(hash: string, id: string, now: real)
      modifies this
      ensures State() == Record(old(State()), hash, id, now, window)
    {
      sends := Recent(sends, now, window) + [Send(now, hash)];
      done := map id | id in done && done[id] > now - KEEP_IDS :: done[id];
      done := done[id := now];
    }
  }

  /** Answers as `Check` does. */
  method CheckPolicy(limits: Limits, ledger: Ledger, dest: Option<string>, text: Option<string>, now: real)
    returns (reason: Option<string>)
    requires ledger.window == limits.window
    ensures reason == Check(limits, ledger.State(), dest, text, now)
  {
    if dest.None? || !limits.allow(dest.value) { return Some("number_not_allowed"); }
    if text.None? || text.value == "" || |text.value| > limits.maxLength { return Some("bad_text"); }
    var i := 0;
    while i < |text.value|
      invariant i <= |text.value| && forall k :: 0 <= k < i ==> ' ' <= text.value[k] <= '~'
    {
      if !(' ' <= text.value[i] <= '~') {
        assert text.value[i] in text.value;
        return Some("bad_text");
      }
      i := i + 1;
    }
    var all, number := ledger.Counts(limits.hash(dest.value), now);
    if all >= limits.maxSms { return Some("limit_reached"); }
    if number >= limits.maxPerNumber { return Some("number_limit_reached"); }
    return None;
  }

  /** Handles one queued message; every send attempt is on record before the modem is asked. */
  method Process(limits: Limits, ledger: Ledger, m: Message, t1: real, t2: real, t3: real, modemOk: bool)
    returns (outcome: string, reports: seq<Report>, attempted: bool)
    requires ledger.window == limits.window
    modifies ledger
    ensures Handling(outcome, reports, attempted, ledger.State())
         == Handle(limits, old(ledger.State()), m, t1, t2, t3, modemOk)
  {
    if m.id == "" { return "bad_message", [], false; }
    if m.id in ledger.done { return "duplicate", [Report(m.id, "sent", "duplicate_suppressed")], false; }
    if m.expiresAt.Some? && m.expiresAt.value <= t1 { return "expired", [Report(m.id, "rejected", "expired")], false; }
    var reason := CheckPolicy(limits, ledger, m.dest, m.text, t2);
    if reason.Some? { return reason.value, [Report(m.id, "rejected", reason.value)], false; }
    ledger.RecordSend(limits.hash(m.dest.value), m.id, t3);
    if !modemOk { return "failed", [Report(m.id, "failed", "modem_error")], true; }
    return "sent", [Report(m.id, "sent", "")], true;
  }
}
