/** Device certificates, revocations, and the stored revocations of an account. */
module Devices {
  import opened Bytes
  import opened Sorting
  import opened SymbolicCrypto
  import opened Ratchet
  import opened SignedEncodings

  datatype DeviceCertificate = DeviceCertificate(
    accountId: Text, deviceId: Text, ed25519: Key32, x25519: Key32, signature: Signature)

  datatype DeviceRevocation = DeviceRevocation(
    accountId: Text, deviceId: Text, counter: u64, signature: Signature)

  function CertificateFields(c: DeviceCertificate): Signable {
    Certificate(c.accountId, c.deviceId, c.ed25519, c.x25519)
  }

  function RevocationFields(r: DeviceRevocation): Signable {
    Revocation(r.accountId, r.deviceId, r.counter)
  }

  predicate CertificateValid(sha: Digest, account: Key32, c: DeviceCertificate) {
    c.accountId == AccountIdFor(sha, account) && Verifies(account, Encode(CertificateFields(c)), c.signature)
  }

  predicate RevocationValid(sha: Digest, account: Key32, r: DeviceRevocation) {
    r.accountId == AccountIdFor(sha, account) && Verifies(account, Encode(RevocationFields(r)), r.signature)
  }

  /** A signature that one account made over a certificate cannot be carried over to different fields. */
  lemma SignatureBindsFields(sha: Digest, account: Key32, c: DeviceCertificate, d: DeviceCertificate)
    requires CertificateValid(sha, account, c) && CertificateValid(sha, account, d)
    ensures c.signature == d.signature <==> c == d
  {
    if c.signature == d.signature {
      EncodeInjective(CertificateFields(c), CertificateFields(d));
    }
  }

  predicate Matches(r: DeviceRevocation, c: DeviceCertificate) {
    r.accountId == c.accountId && r.deviceId == c.deviceId
  }

  predicate VerifySiblings(sha: Digest, account: Key32, first: DeviceCertificate, second: DeviceCertificate) {
    && CertificateValid(sha, account, first)
    && CertificateValid(sha, account, second)
    && first.accountId == second.accountId
    && first.deviceId != second.deviceId
  }

  // ---- Current authorisation ----

  /** The answer for one certificate, scanning the revocations in order. */
  function Scan(sha: Digest, account: Key32, c: DeviceCertificate, revocations: seq<DeviceRevocation>): Result<bool> {
    if revocations == [] then Ok(true)
    else if Matches(revocations[0], c) then
      if RevocationValid(sha, account, revocations[0]) then Ok(false) else Err(SignatureVerification)
    else Scan(sha, account, c, revocations[1..])
  }

  function Authorized(sha: Digest, account: Key32, c: DeviceCertificate, revocations: seq<DeviceRevocation>)
    : Result<bool>
  {
    if CertificateValid(sha, account, c) then Scan(sha, account, c, revocations) else Err(SignatureVerification)
  }

  method IsDeviceCurrentlyAuthorized(
      sha: Digest, account: Key32, c: DeviceCertificate, revocations: seq<DeviceRevocation>)
    returns (r: Result<bool>)
    ensures r == Authorized(sha, account, c, revocations)
  {
    if !CertificateValid(sha, account, c) {
      return Err(SignatureVerification);
    }
    for i := 0 to |revocations|
      invariant Scan(sha, account, c, revocations[i..]) == Scan(sha, account, c, revocations)
    {
      assert revocations[i..][1..] == revocations[i + 1..];
      if Matches(revocations[i], c) {
        if !RevocationValid(sha, account, revocations[i]) {
          return Err(SignatureVerification);
        }
        return Ok(false);
      }
    }
    assert revocations[|revocations|..] == [];
    return Ok(true);
  }

  /** Revocation `i` is the first of the list that names the certificate's device. */
  predicate FirstMatch(revocations: seq<DeviceRevocation>, c: DeviceCertificate, i: int) {
    && 0 <= i < |revocations| && Matches(revocations[i], c)
    && forall j :: 0 <= j < i ==> !Matches(revocations[j], c)
  }

  /** Authorised means exactly: a valid certificate that no listed revocation matches. */
  lemma {:induction false} ScanMeaning(sha: Digest, account: Key32, c: DeviceCertificate,
                                       revocations: seq<DeviceRevocation>)
    ensures Scan(sha, account, c, revocations) == Ok(true) <==> forall r :: r in revocations ==> !Matches(r, c)
    ensures Scan(sha, account, c, revocations) == Ok(false) <==>
      exists i :: FirstMatch(revocations, c, i) && RevocationValid(sha, account, revocations[i])
    ensures (forall r :: r in revocations && Matches(r, c) ==> RevocationValid(sha, account, r)) ==>
      Scan(sha, account, c, revocations).Ok?
  {
    if revocations != [] {
      var first, rest := revocations[0], revocations[1..];
      assert revocations == [first] + rest;
      ScanMeaning(sha, account, c, rest);
      assert forall i :: FirstMatch(rest, c, i) && !Matches(first, c) ==> FirstMatch(revocations, c, i + 1);
      assert forall i :: FirstMatch(revocations, c, i) && i > 0 ==> FirstMatch(rest, c, i - 1);
      assert Matches(first, c) ==> FirstMatch(revocations, c, 0);
    }
  }

  // ---- Authorisation in terms of the records alone ----

  /** The account's key signed these very fields, under the account's own id. */
  ghost predicate IssuedCertificate(sha: Digest, account: Key32, c: DeviceCertificate) {
    && c.accountId == AccountIdFor(sha, account)
    && c.signature == Signed(account, Encode(Certificate(c.accountId, c.deviceId, c.ed25519, c.x25519)))
  }

  ghost predicate IssuedRevocation(sha: Digest, account: Key32, r: DeviceRevocation) {
    && r.accountId == AccountIdFor(sha, account)
    && r.signature == Signed(account, Encode(Revocation(r.accountId, r.deviceId, r.counter)))
  }

  /** A listed revocation carries the certificate's account and device. */
  ghost predicate Listed(revocations: seq<DeviceRevocation>, c: DeviceCertificate) {
    exists i ::
      0 <= i < |revocations| && revocations[i].accountId == c.accountId && revocations[i].deviceId == c.deviceId
  }

  /** The first listed revocation of the device was signed by the account. */
  ghost predicate ListedAndIssued(sha: Digest, account: Key32, revocations: seq<DeviceRevocation>,
                                  c: DeviceCertificate)
  {
    exists i ::
      && 0 <= i < |revocations| && IssuedRevocation(sha, account, revocations[i])
      && revocations[i].accountId == c.accountId && revocations[i].deviceId == c.deviceId
      && forall j :: 0 <= j < i ==> !(revocations[j].accountId == c.accountId && revocations[j].deviceId == c.deviceId)
  }

  lemma CertificateValidIff(sha: Digest, account: Key32, c: DeviceCertificate)
    ensures CertificateValid(sha, account, c) <==> IssuedCertificate(sha, account, c)
  {
  }

  lemma RevocationValidIff(sha: Digest, account: Key32, r: DeviceRevocation)
    ensures RevocationValid(sha, account, r) <==> IssuedRevocation(sha, account, r)
  {
  }

  /** The answer for one certificate, each of its three cases as an iff. */
  lemma AuthorizedIff(sha: Digest, account: Key32, c: DeviceCertificate, revocations: seq<DeviceRevocation>)
    ensures var r := Authorized(sha, account, c, revocations);
      && (r.Ok? && r.value <==> IssuedCertificate(sha, account, c) && !Listed(revocations, c))
      && (r.Ok? && !r.value <==>
          IssuedCertificate(sha, account, c) && ListedAndIssued(sha, account, revocations, c))
      && (r.Err? ==> r.error == SignatureVerification)
  {
    ScanMeaning(sha, account, c, revocations);
    if i :| 0 <= i < |revocations| && revocations[i].accountId == c.accountId && revocations[i].deviceId == c.deviceId {
      assert revocations[i] in revocations && Matches(revocations[i], c);
    }
    if i :| FirstMatch(revocations, c, i) && RevocationValid(sha, account, revocations[i]) {
      assert IssuedRevocation(sha, account, revocations[i]);
      assert forall j :: 0 <= j < i ==> !Matches(revocations[j], c);
    }
    ListedIssuedMatches(sha, account, c, revocations);
    ScanErrors(sha, account, c, revocations);
  }

  lemma ListedIssuedMatches(sha: Digest, account: Key32, c: DeviceCertificate, revocations: seq<DeviceRevocation>)
    ensures ListedAndIssued(sha, account, revocations, c) <==>
      exists i :: FirstMatch(revocations, c, i) && RevocationValid(sha, account, revocations[i])
  {
    if i :|
      && 0 <= i < |revocations| && IssuedRevocation(sha, account, revocations[i])
      && revocations[i].accountId == c.accountId && revocations[i].deviceId == c.deviceId
      && forall j :: 0 <= j < i ==> !(revocations[j].accountId == c.accountId && revocations[j].deviceId == c.deviceId)
    {
      assert FirstMatch(revocations, c, i);
    }
  }

  lemma {:induction false} ScanErrors(sha: Digest, account: Key32, c: DeviceCertificate,
                                      revocations: seq<DeviceRevocation>)
    ensures Scan(sha, account, c, revocations).Err? ==>
      Scan(sha, account, c, revocations).error == SignatureVerification
  {
    if revocations != [] {
      ScanErrors(sha, account, c, revocations[1..]);
    }
  }

  /** Two devices of one account: both certificates issued by it, and for different devices. */
  lemma SiblingsIff(sha: Digest, account: Key32, first: DeviceCertificate, second: DeviceCertificate)
    ensures VerifySiblings(sha, account, first, second) <==>
      && IssuedCertificate(sha, account, first) && IssuedCertificate(sha, account, second)
      && first.deviceId != second.deviceId
  {
  }

  /** Keeps the authorised certificates in order; the first error wins. */
  function Active(sha: Digest, account: Key32, certs: seq<DeviceCertificate>, revocations: seq<DeviceRevocation>)
    : Result<seq<DeviceCertificate>>
  {
    if certs == [] then Ok([])
    else
      match Authorized(sha, account, certs[0], revocations)
      case Err(e) => Err(e)
      case Ok(current) =>
        match Active(sha, account, certs[1..], revocations)
        case Err(e) => Err(e)
        case Ok(rest) => Ok(if current then [certs[0]] + rest else rest)
  }

  /** The certificates with no matching revocation, in order. */
  function Unrevoked(certs: seq<DeviceCertificate>, revocations: seq<DeviceRevocation>): seq<DeviceCertificate> {
    if certs == [] then []
    else if exists r :: r in revocations && Matches(r, certs[0]) then Unrevoked(certs[1..], revocations)
    else [certs[0]] + Unrevoked(certs[1..], revocations)
  }

  /** A successful list is exactly the certificates with no matching revocation, in order. */
  lemma {:induction false} ActiveIsUnrevoked(sha: Digest, account: Key32,
                                             certs: seq<DeviceCertificate>, revocations: seq<DeviceRevocation>)
    ensures var r := Active(sha, account, certs, revocations);
      r.Ok? ==> r.value == Unrevoked(certs, revocations) && forall c :: c in certs ==> CertificateValid(sha, account, c)
  {
    if certs != [] {
      ScanMeaning(sha, account, certs[0], revocations);
      ActiveIsUnrevoked(sha, account, certs[1..], revocations);
      assert certs == [certs[0]] + certs[1..];
    }
  }

  /** With valid records the list is always produced. */
  lemma {:induction false} ActiveSucceeds(sha: Digest, account: Key32,
                                          certs: seq<DeviceCertificate>, revocations: seq<DeviceRevocation>)
    requires forall c :: c in certs ==> CertificateValid(sha, account, c)
    requires forall r :: r in revocations ==> RevocationValid(sha, account, r)
    ensures Active(sha, account, certs, revocations).Ok?
  {
    if certs != [] {
      assert certs[0] in certs;
      ScanMeaning(sha, account, certs[0], revocations);
      ActiveSucceeds(sha, account, certs[1..], revocations);
    }
  }

  lemma {:induction false} UnrevokedMembers(certs: seq<DeviceCertificate>, revocations: seq<DeviceRevocation>,
                                            c: DeviceCertificate)
    ensures c in Unrevoked(certs, revocations) <==>
      c in certs && forall r :: r in revocations ==> !(r.accountId == c.accountId && r.deviceId == c.deviceId)
  {
    if certs != [] {
      assert certs == [certs[0]] + certs[1..];
      UnrevokedMembers(certs[1..], revocations, c);
    }
  }

  // ---- Stored revocations ----

  type RevocationKey = (Text, Text)

  datatype StoredRevocation = StoredRevocation(counter: nat, revocation: DeviceRevocation)

  type RevocationTable = map<RevocationKey, StoredRevocation>

  /** One call of `save_device_revocation`: the row key and counter are passed beside the record. */
  datatype Save = Save(accountId: Text, deviceId: Text, counter: nat, revocation: DeviceRevocation)

  function KeyOf(save: Save): RevocationKey {
    (save.accountId, save.deviceId)
  }

  /** Insert, or on conflict keep the larger counter and, on `>=`, the newer record. */
  function SaveRevocation(t: RevocationTable, save: Save): RevocationTable {
    var key := KeyOf(save);
    if key !in t || save.counter >= t[key].counter
    then t[key := StoredRevocation(save.counter, save.revocation)]
    else t
  }

  function SaveAll(t: RevocationTable, saves: seq<Save>): RevocationTable {
    if saves == [] then t else SaveRevocation(SaveAll(t, saves[..|saves| - 1]), saves[|saves| - 1])
  }

  /** The rows of an account, in device order. */
  function RevocationsFor(t: RevocationTable, accountId: Text): seq<DeviceRevocation> {
    var devices := DevicesOf(t, accountId);
    seq(|devices|, i requires 0 <= i < |devices| => t[(accountId, devices[i])].revocation)
  }

  function DevicesOf(t: RevocationTable, accountId: Text): (devices: seq<Text>)
    ensures forall d :: d in devices <==> (accountId, d) in t
    ensures Ascending(devices, LexLe)
  {
    TextOrder();
    var ids := set k | k in t && k.0 == accountId :: k.1;
    assert forall d :: (accountId, d) in t ==> (accountId, d).1 in ids;
    Sorted(ids, LexLe)
  }

  class RevocationStore {
    var rows: RevocationTable

    constructor ()
      ensures rows == map[]
    {
      rows := map[];
    }

    method SaveDeviceRevocation(accountId: Text, deviceId: Text, counter: nat, revocation: DeviceRevocation)
      modifies this
      ensures rows == SaveRevocation(old(rows), Save(accountId, deviceId, counter, revocation))
    {
      var key := (accountId, deviceId);
      if key in rows {
        var stored := rows[key];
        var latest := if counter >= stored.counter then revocation else stored.revocation;
        rows := rows[key := StoredRevocation(if counter >= stored.counter then counter else stored.counter, latest)];
      } else {
        rows := rows[key := StoredRevocation(counter, revocation)];
      }
    }
  }

  /** Save `i` is the last one with the largest counter for its row. */
  ghost predicate Wins(saves: seq<Save>, key: RevocationKey, i: int) {
    && 0 <= i < |saves| && KeyOf(saves[i]) == key
    && (forall j :: 0 <= j < i && KeyOf(saves[j]) == key ==> saves[j].counter <= saves[i].counter)
    && (forall j :: i < j < |saves| && KeyOf(saves[j]) == key ==> saves[j].counter < saves[i].counter)
  }

  lemma WinnerStep(front: seq<Save>, last: Save, key: RevocationKey, i: int)
    requires Wins(front, key, i)
    ensures var n := |front|;
      Wins(front + [last], key, if KeyOf(last) == key && last.counter >= front[i].counter then n else i)
  {
    var saves := front + [last];
    assert forall j :: 0 <= j < |front| ==> saves[j] == front[j];
  }

  /** Whatever the order of counters, each row holds exactly its winning save. */
  lemma {:induction false} StoredIsWinner(saves: seq<Save>, key: RevocationKey) returns (i: int)
    ensures key in SaveAll(map[], saves) <==> 0 <= i
    ensures 0 <= i ==>
      && Wins(saves, key, i)
      && SaveAll(map[], saves)[key] == StoredRevocation(saves[i].counter, saves[i].revocation)
    ensures i < 0 ==> forall j :: 0 <= j < |saves| ==> KeyOf(saves[j]) != key
  {
    i := -1;
    if saves != [] {
      var n := |saves| - 1;
      assert saves == saves[..n] + [saves[n]];
      i := StoredIsWinner(saves[..n], key);
      if 0 <= i {
        WinnerStep(saves[..n], saves[n], key, i);
      }
      if KeyOf(saves[n]) == key && (i < 0 || saves[n].counter >= saves[i].counter) {
        i := n;
      }
    }
  }

  /** The record saved under a row names that row, as every caller in the program arranges. */
  predicate WellKeyed(save: Save) {
    save.revocation.accountId == save.accountId && save.revocation.deviceId == save.deviceId
  }

  /** The rows of an account are exactly what its list reads. */
  lemma ListedIff(t: RevocationTable, accountId: Text, r: DeviceRevocation)
    ensures r in RevocationsFor(t, accountId) <==> exists d :: (accountId, d) in t && t[(accountId, d)].revocation == r
  {
    var devices := DevicesOf(t, accountId);
    if r in RevocationsFor(t, accountId) {
      var i :| 0 <= i < |devices| && RevocationsFor(t, accountId)[i] == r;
      assert devices[i] in devices;
    }
    if d :| (accountId, d) in t && t[(accountId, d)].revocation == r {
      var i :| 0 <= i < |devices| && devices[i] == d;
      assert RevocationsFor(t, accountId)[i] == r;
    }
  }

  /** Some row that the account's list reads names the certificate's device. */
  ghost predicate Revoked(t: RevocationTable, c: DeviceCertificate) {
    exists d :: (c.accountId, d) in t &&
      t[(c.accountId, d)].revocation.accountId == c.accountId && t[(c.accountId, d)].revocation.deviceId == c.deviceId
  }

  /** A certificate is on a successful list exactly when it was given and no row of its account names its device. */
  lemma ActiveIffNotRevoked(sha: Digest, account: Key32, certs: seq<DeviceCertificate>, t: RevocationTable,
                            c: DeviceCertificate)
    requires Active(sha, account, certs, RevocationsFor(t, c.accountId)).Ok?
    ensures c in Active(sha, account, certs, RevocationsFor(t, c.accountId)).value <==> c in certs && !Revoked(t, c)
  {
    var listed := RevocationsFor(t, c.accountId);
    ActiveIsUnrevoked(sha, account, certs, listed);
    UnrevokedMembers(certs, listed, c);
    forall r ensures r in listed <==> exists d :: (c.accountId, d) in t && t[(c.accountId, d)].revocation == r {
      ListedIff(t, c.accountId, r);
    }
  }

  /** A save whose record names the certificate's device won a row of the certificate's account. */
  ghost predicate RevokedBy(saves: seq<Save>, c: DeviceCertificate, i: int) {
    && 0 <= i < |saves| && saves[i].accountId == c.accountId
    && Wins(saves, KeyOf(saves[i]), i)
    && saves[i].revocation.accountId == c.accountId && saves[i].revocation.deviceId == c.deviceId
  }

  /**
   * After any saves at all, in any counter order and under any row keys, a device is revoked if and
   * only if the winning save of some row of its account names it.
   */
  lemma RevokedIffWinnerNames(saves: seq<Save>, c: DeviceCertificate)
    ensures Revoked(SaveAll(map[], saves), c) <==> exists i :: RevokedBy(saves, c, i)
  {
    var t := SaveAll(map[], saves);
    if d :| (c.accountId, d) in t && Matches(t[(c.accountId, d)].revocation, c) {
      var i := StoredIsWinner(saves, (c.accountId, d));
      assert RevokedBy(saves, c, i);
    }
    if i :| RevokedBy(saves, c, i) {
      var w := StoredIsWinner(saves, KeyOf(saves[i]));
      WinnerUnique(saves, KeyOf(saves[i]), i, w);
    }
  }

  lemma WinnerUnique(saves: seq<Save>, key: RevocationKey, i: int, j: int)
    requires Wins(saves, key, i) && Wins(saves, key, j)
    ensures i == j
  {
  }

  /**
   * Revocation is permanent. Once a revocation of a device has been saved under that device, no saves
   * before or after it, in any counter order, lead to an active list that contains the device; the
   * one thing that could is a save under the same row, with a counter as large, that names another.
   */
  lemma RevocationPermanent(sha: Digest, account: Key32, certs: seq<DeviceCertificate>,
                            saves: seq<Save>, k: nat, c: DeviceCertificate)
    requires k < |saves| && KeyOf(saves[k]) == (c.accountId, c.deviceId)
    ensures var r := Active(sha, account, certs, RevocationsFor(SaveAll(map[], saves), c.accountId));
      r.Ok? && c in r.value ==>
      exists i :: 0 <= i < |saves| && KeyOf(saves[i]) == KeyOf(saves[k])
                  && saves[i].counter >= saves[k].counter && !WellKeyed(saves[i])
  {
    var t := SaveAll(map[], saves);
    var i := StoredIsWinner(saves, KeyOf(saves[k]));
    RevokedIffWinnerNames(saves, c);
    if Active(sha, account, certs, RevocationsFor(t, c.accountId)).Ok? {
      ActiveIffNotRevoked(sha, account, certs, t, c);
    }
    assert WellKeyed(saves[i]) ==> RevokedBy(saves, c, i);
    assert saves[i].counter >= saves[k].counter;
  }

  /** The save replaces or creates the row it is for. */
  predicate Lands(t: RevocationTable, save: Save) {
    KeyOf(save) !in t || save.counter >= t[KeyOf(save)].counter
  }

  /**
   * One more save on any table: a device is revoked after it exactly when the save lands in its
   * account and names it, or another row than the one it lands on already named it.
   */
  lemma SaveRevokesIff(t: RevocationTable, save: Save, c: DeviceCertificate)
    ensures Revoked(SaveRevocation(t, save), c) <==>
      || (Lands(t, save) && save.accountId == c.accountId && Matches(save.revocation, c))
      || (exists d ::
            && (c.accountId, d) in t && Matches(t[(c.accountId, d)].revocation, c)
            && !(Lands(t, save) && KeyOf(save) == (c.accountId, d)))
  {
    var t' := SaveRevocation(t, save);
    forall d | (c.accountId, d) in t && !(Lands(t, save) && KeyOf(save) == (c.accountId, d))
      ensures (c.accountId, d) in t' && t'[(c.accountId, d)] == t[(c.accountId, d)]
    {
    }
    if Lands(t, save) && save.accountId == c.accountId {
      assert (c.accountId, save.deviceId) in t' && t'[(c.accountId, save.deviceId)].revocation == save.revocation;
    }
  }

  /** A save whose record names another device, with a counter as large, would lift a revocation. */
  lemma MiskeyedSaveLifts(account: Text, phone: Text, other: Text, n: u64, s: Signature, c: DeviceCertificate)
    requires phone != other && c.accountId == account && c.deviceId == phone
    ensures var saves := [Save(account, phone, n, DeviceRevocation(account, phone, n, s)),
                          Save(account, phone, n, DeviceRevocation(account, other, n, s))];
      Unrevoked([c], RevocationsFor(SaveAll(map[], saves), account)) == [c]
  {
    var first := Save(account, phone, n, DeviceRevocation(account, phone, n, s));
    var second := Save(account, phone, n, DeviceRevocation(account, other, n, s));
    var saves := [first, second];
    assert saves[..1] == [first] && [first][..0] == [];
    assert SaveAll(map[], [first]) == SaveRevocation(SaveAll(map[], []), first);
    var t := SaveAll(map[], saves);
    assert t == map[(account, phone) := StoredRevocation(n, second.revocation)];
    forall r | r in RevocationsFor(t, account) ensures !Matches(r, c) {
      var devices := DevicesOf(t, account);
      var i :| 0 <= i < |devices| && r == t[(account, devices[i])].revocation;
      assert devices[i] in devices;
    }
    UnrevokedMembers([c], RevocationsFor(t, account), c);
  }
}
