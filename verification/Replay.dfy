/** Signed requests: freshness window, nonce check, signature, nonce record. */
module Replay {
  import opened Nonces
  import Text

  datatype SignedRequest = SignedRequest(
    payloadJson: string, nonce: string, timestamp: int, signature: string, publicKey: string)

  /** Ed25519 verification of (message, signature, public key). */
  type Verifier = (string, string, string) -> bool

  function CanonicalMessage(r: SignedRequest): string {
    r.payloadJson + r.nonce + Text.SignedDecimal(r.timestamp)
  }

  predicate Signed(verify: Verifier, r: SignedRequest) {
    verify(CanonicalMessage(r), r.signature, r.publicKey)
  }

  /** Not older and not newer than the tolerance. */
  predicate Fresh(timestamp: int, now: int) {
    var age := now - timestamp;
    age <= TIMESTAMP_TOLERANCE_SECONDS && age >= -TIMESTAMP_TOLERANCE_SECONDS
  }

  function Validate(s: Store, verify: Verifier, r: SignedRequest, now: int): (Store, bool) {
    if !Fresh(r.timestamp, now) then (s, false)
    else
      var (s1, used) := Lookup(s, r.nonce, now);
      if used || !Signed(verify, r) then (s1, false)
      else (Record(s1, r.nonce, now), true)
  }

  method ValidateRequest(store: NonceStore, verify: Verifier, r: SignedRequest, now: int)
    returns (accepted: bool)
    requires store.Valid()
    modifies store
    ensures store.Valid()
    ensures (store.State(), accepted) == Validate(old(store.State()), verify, r, now)
  {
    if !Fresh(r.timestamp, now) {
      return false;
    }
    var used := store.IsNonceUsed(r.nonce, now);
    if used {
      return false;
    }
    if !Signed(verify, r) {
      return false;
    }
    store.RecordNonce(r.nonce, now);
    return true;
  }

  // ----- Runs: validations interleaved with cleanups -----

  datatype Event =
    | Request(request: SignedRequest, now: int)
    | Sweep(now: int)

  ghost predicate Ordered(events: seq<Event>) {
    forall i, j :: 0 <= i < j < |events| ==> events[i].now <= events[j].now
  }

  function After(verify: Verifier, events: seq<Event>): Store {
    if events == [] then EMPTY_STORE
    else
      var s := After(verify, events[..|events| - 1]);
      match events[|events| - 1]
      case Request(r, now) => Validate(s, verify, r, now).0
      case Sweep(now) => Cleanup(s, now)
  }

  predicate Accepted(verify: Verifier, events: seq<Event>, i: nat)
    requires i < |events|
  {
    && events[i].Request?
    && Validate(After(verify, events[..i]), verify, events[i].request, events[i].now).1
  }

  /** The expiry time of each accepted nonce: its last acceptance plus five minutes. */
  function Expiries(verify: Verifier, events: seq<Event>): map<string, int> {
    if events == [] then map[]
    else
      var n := |events| - 1;
      var before := Expiries(verify, events[..n]);
      if Accepted(verify, events, n) then
        before[events[n].request.nonce := events[n].now + 300]
      else
        before
  }

  lemma ValidateRefines(s: Store, plain: map<string, int>, verify: Verifier, r: SignedRequest, now: int)
    requires Refines(s, plain, now)
    ensures Refines(Validate(s, verify, r, now).0,
                    if Validate(s, verify, r, now).1 then plain[r.nonce := now + NONCE_EXPIRATION_SECONDS] else plain,
                    now)
    ensures Validate(s, verify, r, now).1 <==>
            Fresh(r.timestamp, now) && Signed(verify, r) && !(r.nonce in plain && plain[r.nonce] > now)
  {
    LookupRefines(s, plain, r.nonce, now);
    RecordRefines(Lookup(s, r.nonce, now).0, plain, r.nonce, now);
  }

  lemma {:induction false} RunRefines(verify: Verifier, events: seq<Event>, now: int)
    requires Ordered(events) && forall i :: 0 <= i < |events| ==> events[i].now <= now
    ensures Refines(After(verify, events), Expiries(verify, events), now)
  {
    if events == [] {
    } else {
      var n := |events| - 1;
      RunRefines(verify, events[..n], events[n].now);
      if events[n].Request? {
        ValidateRefines(After(verify, events[..n]), Expiries(verify, events[..n]), verify,
                        events[n].request, events[n].now);
      }
    }
  }

  /** Acceptance, decided by the clock, the signature and the accepted nonces alone. */
  lemma AcceptedIff(verify: Verifier, events: seq<Event>, i: nat)
    requires Ordered(events) && i < |events| && events[i].Request?
    ensures var r := events[i].request;
            var expiries := Expiries(verify, events[..i]);
            Accepted(verify, events, i) <==>
            && -300 <= events[i].now - r.timestamp <= 300
            && verify(r.payloadJson + r.nonce + Text.SignedDecimal(r.timestamp), r.signature, r.publicKey)
            && !(r.nonce in expiries && expiries[r.nonce] > events[i].now)
  {
    RunRefines(verify, events[..i], events[i].now);
    ValidateRefines(After(verify, events[..i]), Expiries(verify, events[..i]), verify,
                    events[i].request, events[i].now);
  }

  lemma {:induction false} ExpiryRemembered(verify: Verifier, events: seq<Event>, i: nat, j: nat)
    requires Ordered(events) && i < j <= |events| && Accepted(verify, events, i)
    ensures events[i].request.nonce in Expiries(verify, events[..j])
    ensures Expiries(verify, events[..j])[events[i].request.nonce] >= events[i].now + 300
  {
    ExpiriesStep(verify, events, j - 1);
    if i < j - 1 {
      ExpiryRemembered(verify, events, i, j - 1);
    }
  }

  lemma ExpiriesStep(verify: Verifier, events: seq<Event>, j: nat)
    requires j < |events|
    ensures var before := Expiries(verify, events[..j]);
            Expiries(verify, events[..j + 1]) ==
            if Accepted(verify, events, j) then before[events[j].request.nonce := events[j].now + 300] else before
  {
    assert events[..j + 1][..j] == events[..j];
  }

  // ----- Main results -----

  /** A nonce is never accepted twice within five minutes. */
  lemma NonceSpacing(verify: Verifier, events: seq<Event>, i: nat, j: nat)
    requires Ordered(events) && i < j < |events|
    requires Accepted(verify, events, i) && Accepted(verify, events, j)
    requires events[i].request.nonce == events[j].request.nonce
    ensures events[j].now - events[i].now >= 300
  {
    ExpiryRemembered(verify, events, i, j);
    AcceptedIff(verify, events, j);
  }

  /** A request stamped before its acceptance time is never accepted again. */
  lemma NoReplayOfPastStamp(verify: Verifier, events: seq<Event>, i: nat, j: nat)
    requires Ordered(events) && i < j < |events|
    requires Accepted(verify, events, i) && events[i].request.timestamp < events[i].now
    requires events[j].Request? && events[j].request == events[i].request
    ensures !Accepted(verify, events, j)
  {
    AcceptedIff(verify, events, j);
    if Accepted(verify, events, j) {
      NonceSpacing(verify, events, i, j);
    }
  }

  /** The message by position: the payload text, the nonce, and ten digits that read as the stamp. */
  lemma MessageByPosition(r: SignedRequest)
    requires Text.TenDigits(r.timestamp)
    ensures var message, p, n := CanonicalMessage(r), |r.payloadJson|, |r.nonce|;
            && |message| == p + n + 10
            && message[..p] == r.payloadJson && message[p..p + n] == r.nonce
            && Text.AllDigits(message[p + n..]) && Text.Number(message[p + n..]) == r.timestamp
  {
    Text.TenDigitText(r.timestamp);
    Text.NumberOfDecimal(r.timestamp);
    var message, p, n := CanonicalMessage(r), |r.payloadJson|, |r.nonce|;
    assert message[p + n..] == Text.Decimal(r.timestamp);
  }

  /** Neither text goes on where the other ends, as no JSON object does. */
  predicate PrefixFree(a: string, b: string) {
    (a <= b ==> a == b) && (b <= a ==> a == b)
  }

  /** With prefix-free payload texts and ten-digit stamps the unseparated message splits in one way. */
  lemma MessageParsesUniquely(a: SignedRequest, b: SignedRequest)
    requires PrefixFree(a.payloadJson, b.payloadJson) && Text.TenDigits(a.timestamp) && Text.TenDigits(b.timestamp)
    requires CanonicalMessage(a) == CanonicalMessage(b)
    ensures a.payloadJson == b.payloadJson && a.nonce == b.nonce && a.timestamp == b.timestamp
  {
    var x, y := Text.SignedDecimal(a.timestamp), Text.SignedDecimal(b.timestamp);
    Text.TenDigitText(a.timestamp);
    Text.TenDigitText(b.timestamp);
    assert CanonicalMessage(a) == a.payloadJson + (a.nonce + x);
    assert CanonicalMessage(b) == b.payloadJson + (b.nonce + y);
    OneIsPrefix(a.payloadJson, a.nonce + x, b.payloadJson, b.nonce + y);
    Text.SplitAt(a.payloadJson, a.nonce + x, b.payloadJson, b.nonce + y);
    assert |a.nonce| == |b.nonce|;
    Text.SplitAt(a.nonce, x, b.nonce, y);
    Text.SignedDecimalInjective(a.timestamp, b.timestamp);
  }

  lemma OneIsPrefix(a: string, x: string, b: string, y: string)
    requires a + x == b + y
    ensures a <= b || b <= a
  {
    if |a| <= |b| {
      assert a == (a + x)[..|a|] == (b + y)[..|a|] == b[..|a|];
    } else {
      assert b == (b + y)[..|b|] == (a + x)[..|b|] == a[..|b|];
    }
  }

  /** The same for whatever carries the same signed message, under any signature and key. */
  lemma NoReplayOfPastMessage(verify: Verifier, events: seq<Event>, i: nat, j: nat)
    requires Ordered(events) && i < j < |events|
    requires Accepted(verify, events, i) && events[i].request.timestamp < events[i].now && events[j].Request?
    requires var a, b := events[i].request, events[j].request;
             && CanonicalMessage(a) == CanonicalMessage(b) && PrefixFree(a.payloadJson, b.payloadJson)
             && Text.TenDigits(a.timestamp) && Text.TenDigits(b.timestamp)
    ensures !Accepted(verify, events, j)
  {
    MessageParsesUniquely(events[i].request, events[j].request);
    AcceptedIff(verify, events, j);
    if Accepted(verify, events, j) {
      NonceSpacing(verify, events, i, j);
    }
  }

  lemma RevalidatedIff(verify: Verifier, events: seq<Event>, r: SignedRequest, accepted: int, t: int)
    requires Ordered(events) && forall i :: 0 <= i < |events| ==> events[i].now <= t
    requires Signed(verify, r)
    requires r.nonce in Expiries(verify, events)
    requires Expiries(verify, events)[r.nonce] == accepted + NONCE_EXPIRATION_SECONDS
    ensures Validate(After(verify, events), verify, r, t).1 <==>
            Fresh(r.timestamp, t) && t >= accepted + NONCE_EXPIRATION_SECONDS
  {
    RunRefines(verify, events, t);
    ValidateRefines(After(verify, events), Expiries(verify, events), verify, r, t);
  }

  /** The request would be accepted at time `t`. */
  predicate AcceptableAt(verify: Verifier, events: seq<Event>, r: SignedRequest, t: int) {
    Validate(After(verify, events), verify, r, t).1
  }

  lemma AcceptableAgainIff(verify: Verifier, events: seq<Event>, i: nat, t: int)
    requires Ordered(events) && i == |events| - 1 && Accepted(verify, events, i) && events[i].now <= t
    ensures AcceptableAt(verify, events, events[i].request, t) <==>
            -300 <= t - events[i].request.timestamp <= 300 && t >= events[i].now + 300
  {
    AcceptedIff(verify, events, i);
    RevalidatedIff(verify, events, events[i].request, events[i].now, t);
  }

  /**
   The stamp decides exactly: right after its acceptance, a later validation of the
   same request can succeed if and only if it was stamped at or after that time.
   */
  lemma ReplayableIffNotStampedInPast(verify: Verifier, events: seq<Event>, i: nat)
    requires Ordered(events) && i == |events| - 1 && Accepted(verify, events, i)
    ensures (exists t :: events[i].now <= t && AcceptableAt(verify, events, events[i].request, t)) <==>
            events[i].request.timestamp >= events[i].now
  {
    var r, now := events[i].request, events[i].now;
    AcceptedIff(verify, events, i);
    forall t | now <= t
      ensures AcceptableAt(verify, events, r, t) <==> -300 <= t - r.timestamp <= 300 && t >= now + 300
    {
      AcceptableAgainIff(verify, events, i, t);
    }
    if r.timestamp >= now {
      assert AcceptableAt(verify, events, r, now + 300);
    }
  }
}
