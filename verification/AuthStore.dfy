/** The companion's pairing state: at most one paired bridge, at most one pending pairing challenge. */
module AuthState {
  import opened Prelude
  import opened Protocol

  const PAIRING_TTL_MS := 10 * 60 * 1000

  datatype PairedBridge = PairedBridge(installationId: Uuid, secret: Uuid, scopes: seq<Scope>)

  datatype PairingChallenge = PairingChallenge(
    pairingId: Uuid, pairingCode: nat, installationId: Uuid, expiresAt: int)

  datatype Auth = Auth(paired: Option<PairedBridge>, challenge: Option<PairingChallenge>)

  /** Random values and the clock reading one call draws. */
  datatype Draw = Draw(now: int, pairingId: Uuid, pairingCode: nat, secret: Uuid)

  function EnsureChallenge(a: Auth, installationId: Uuid, d: Draw): (r: Auth)
    ensures r.paired == a.paired
    ensures r.challenge.Some? && r.challenge.value.installationId == installationId
    ensures r.challenge.value.expiresAt > d.now
    ensures (a.challenge.Some? && a.challenge.value.installationId == installationId
             && a.challenge.value.expiresAt > d.now) ==> r == a
    ensures r.challenge != a.challenge ==>
      r.challenge == Some(PairingChallenge(d.pairingId, d.pairingCode, installationId, d.now + 600_000))
  {
    if a.challenge.None? || a.challenge.value.expiresAt <= d.now
       || a.challenge.value.installationId != installationId
    then a.(challenge := Some(PairingChallenge(d.pairingId, d.pairingCode, installationId, d.now + PAIRING_TTL_MS)))
    else a
  }

  predicate Confirms(a: Auth, c: PairingConfirm, now: int) {
    && a.challenge.Some?
    && a.challenge.value.expiresAt > now
    && a.challenge.value.pairingId == c.pairingId
    && a.challenge.value.installationId == c.installationId
    && a.challenge.value.pairingCode == c.pairingCode
  }

  /** The state after a pairing code arrives. A wrong code leaves the challenge, an expired one drops it. */
  function CompletePairing(a: Auth, c: PairingConfirm, d: Draw): (r: Auth)
    ensures Confirms(a, c, d.now) ==> r.paired.Some? && r.paired.value.installationId == c.installationId
                                      && r.paired.value.secret == d.secret && r.challenge.None?
                                      && r.paired.value.scopes == CAPABILITY_SCOPES
    ensures !Confirms(a, c, d.now) ==> r.paired == a.paired
    ensures !Confirms(a, c, d.now) ==>
      (r.challenge.Some? <==> a.challenge.Some? && a.challenge.value.expiresAt > d.now)
    ensures r.challenge.Some? ==> r.challenge == a.challenge
    ensures a.challenge.None? ==> r == a
  {
    if Confirms(a, c, d.now) then
      Auth(Some(PairedBridge(c.installationId, d.secret, CAPABILITY_SCOPES)), None)
    else if a.challenge.None? || a.challenge.value.expiresAt <= d.now then a.(challenge := None)
    else a
  }

  predicate VerifyProof(a: Auth, m: AuthMessage, proof: Proof) {
    && a.paired.Some?
    && a.paired.value.installationId == m.installationId
    && proof == Hmac(a.paired.value.secret, m)
  }
}

module AuthStore {
  import opened Prelude
  import opened Protocol
  import opened AuthState

  class AuthStore {
    var pairedBridge: Option<PairedBridge>
    var pairingChallenge: Option<PairingChallenge>

    ghost function Model(): Auth reads this { Auth(pairedBridge, pairingChallenge) }

    /** A pairing read from disk, or none. A challenge never survives a restart. */
    constructor (stored: Option<PairedBridge>)
      ensures Model() == Auth(stored, None)
    {
      pairedBridge, pairingChallenge := stored, None;
    }

    method EnsurePairingChallenge(installationId: Uuid, d: Draw) returns (pairingId: Uuid)
      modifies this
      ensures Model() == EnsureChallenge(old(Model()), installationId, d)
      ensures pairingId == Model().challenge.value.pairingId
    {
      if pairingChallenge.None? || pairingChallenge.value.expiresAt <= d.now
         || pairingChallenge.value.installationId != installationId {
        pairingChallenge :=
          Some(PairingChallenge(d.pairingId, d.pairingCode, installationId, d.now + PAIRING_TTL_MS));
      }
      pairingId := pairingChallenge.value.pairingId;
    }

    /** The new pairing, or `None` where the source throws. */
    method CompletePairing(c: PairingConfirm, d: Draw) returns (r: Option<PairedBridge>)
      modifies this
      ensures Model() == AuthState.CompletePairing(old(Model()), c, d)
      ensures r == if Confirms(old(Model()), c, d.now) then Model().paired else None
    {
      if pairingChallenge.None? || pairingChallenge.value.expiresAt <= d.now {
        pairingChallenge := None;
        return None;
      }
      var challenge := pairingChallenge.value;
      if challenge.pairingId != c.pairingId || challenge.installationId != c.installationId
         || challenge.pairingCode != c.pairingCode {
        return None;
      }
      pairedBridge := Some(PairedBridge(c.installationId, d.secret, CAPABILITY_SCOPES));
      pairingChallenge := None;
      r := pairedBridge;
    }

    method VerifyBridgeProof(m: AuthMessage, proof: Proof) returns (ok: bool)
      ensures ok == VerifyProof(Model(), m, proof)
    {
      if pairedBridge.None? || pairedBridge.value.installationId != m.installationId {
        return false;
      }
      ok := proof == Hmac(pairedBridge.value.secret, m);
    }

    method ResetPairing()
      modifies this
      ensures Model() == Auth(None, None)
    {
      pairedBridge, pairingChallenge := None, None;
    }
  }
}
