/** The SOA record as it is read off the wire. */
module Soa {
  import opened Bytes
  import opened WireName
  import opened Message
  import opened RData
  import opened Tables
  import opened Transactions
  import opened Service
  import opened Resolution
  import opened Negatives

  /** `mail` with its first "@" read as ".". */
  ghost predicate FirstAtRead(mail: Text, name: Text) {
    && |name| == |mail|
    && forall i :: 0 <= i < |mail| ==> name[i] == if mail[i] == 64 && 64 !in mail[..i] then 46 else mail[i]
  }

  lemma {:induction false} AtBefore(s: Text, i: nat)
    requires 0 < i < |s|
    ensures 64 in s[..i] <==> s[0] == 64 || 64 in s[1..][..i - 1]
  {
    assert s[..i] == [s[0]] + s[1..][..i - 1];
  }

  lemma {:induction false} AtToDotAt(s: Text, i: nat)
    requires i < |s|
    ensures AtToDot(s)[i] == if s[i] == 64 && 64 !in s[..i] then 46 else s[i]
    decreases i
  {
    if i > 0 {
      AtBefore(s, i);
      if s[0] != 64 { AtToDotAt(s[1..], i - 1); }
    }
  }

  lemma {:induction false} AtToDotReads(s: Text)
    ensures FirstAtRead(s, AtToDot(s))
  {
    forall i | 0 <= i < |s|
      ensures AtToDot(s)[i] == if s[i] == 64 && 64 !in s[..i] then 46 else s[i]
    {
      AtToDotAt(s, i);
    }
  }

  /** The data of an SOA: the two names, and five numbers of four octets each from `end` on. */
  ghost predicate SoaData(data: Text, primary: Text, admin: Text, mid: nat, end: nat, serial: int, z: Zone) {
    && ParseName(data, 0) == Some((Canonical(primary), mid)) && ParseName(data, mid) == Some((Canonical(admin), end))
    && |data| == end + 20 && Get32(data, end) == serial && Get32(data, end + 4) == z.refresh
    && Get32(data, end + 8) == z.retry && Get32(data, end + 12) == z.expire && Get32(data, end + 16) == z.minTtl
  }

  lemma {:induction false} SoaNumbers(primary: Text, admin: Text, ns: seq<u32>, w: Text, mid: nat, end: nat)
    requires SoaBytes(primary, admin, ns) == Some(w) && |ns| == 5
    requires mid == |PackName(primary).value| && end == mid + |PackName(admin).value|
    ensures ParseName(w, 0) == Some((Canonical(primary), mid)) && ParseName(w, mid) == Some((Canonical(admin), end))
    ensures |w| == end + 20 && Get32(w, end) == ns[0] && Get32(w, end + 4) == ns[1] && Get32(w, end + 8) == ns[2]
    ensures Get32(w, end + 12) == ns[3] && Get32(w, end + 16) == ns[4]
  {
    SoaRoundTrip(primary, admin, ns, w, mid, end, 0);
    SoaRoundTrip(primary, admin, ns, w, mid, end, 1);
    SoaRoundTrip(primary, admin, ns, w, mid, end, 2);
    SoaRoundTrip(primary, admin, ns, w, mid, end, 3);
    SoaRoundTrip(primary, admin, ns, w, mid, end, 4);
  }

  function SoaValues(z: Zone): seq<u32> {
    [Mod32(z.serial), Mod32(z.refresh), Mod32(z.retry), Mod32(z.expire), Mod32(z.minTtl)]
  }

  lemma {:induction false} SoaIs(z: Zone, w: Text)
    requires SoaBytes(z.primaryNs, AtToDot(z.adminEmail), SoaValues(z)) == Some(w)
    ensures SoaRR(z) == Some(RR(z.name, 6, 1, Mod32(z.minTtl), w))
  {
  }

  lemma {:induction false} SoaDataIs(z: Zone, admin: Text, w: Text, mid: nat, end: nat)
    requires SoaBytes(z.primaryNs, admin, SoaValues(z)) == Some(w)
    requires mid == |PackName(z.primaryNs).value| && end == mid + |PackName(admin).value|
    requires z.refresh >= 0 && z.retry >= 0 && z.expire >= 0 && z.minTtl >= 0
    ensures SoaData(w, z.primaryNs, admin, mid, end, z.serial % 0x1_0000_0000, z)
  {
    SoaNumbers(z.primaryNs, admin, SoaValues(z), w, mid, end);
  }

  lemma {:induction false} SoaNamesPack(z: Zone)
    requires ServableZone(z)
    ensures Packable(z.primaryNs) && Packable(AtToDot(z.adminEmail))
    ensures z.refresh >= 0 && z.retry >= 0 && z.expire >= 0 && z.minTtl >= 0
  {
    PackableAnyCase(z.primaryNs);
    PackableAnyCase(AtToDot(z.adminEmail));
  }

  lemma {:induction false} SoaPacks(primary: Text, admin: Text, ns: seq<u32>) returns (w: Text)
    requires Packable(primary) && Packable(admin)
    ensures SoaBytes(primary, admin, ns) == Some(w)
  {
    w := SoaBytes(primary, admin, ns).value;
  }

  /** The record is the SOA of the zone. */
  ghost predicate IsSoa(x: RR, z: Zone, admin: Text, mid: nat, end: nat, serial: int) {
    && x.name == z.name && x.rtype == 6 && x.rclass == 1 && x.ttl == z.minTtl
    && SoaData(x.rdata, z.primaryNs, admin, mid, end, serial, z)
  }

  lemma {:induction false} SoaServed(x: RR, z: Zone, admin: Text, w: Text, mid: nat, end: nat, serial: int)
    requires x == RR(z.name, 6, 1, x.ttl, w) && x.ttl == z.minTtl && SoaData(w, z.primaryNs, admin, mid, end, serial, z)
    ensures IsSoa(x, z, admin, mid, end, serial)
  {
  }

  lemma {:induction false} SoaServes(z: Zone, admin: Text) returns (mid: nat, end: nat)
    requires admin == AtToDot(z.adminEmail) && Packable(z.primaryNs) && Packable(admin)
    requires z.refresh >= 0 && z.retry >= 0 && z.expire >= 0 && z.minTtl >= 0
    ensures SoaRR(z).Some? && IsSoa(SoaRR(z).value, z, admin, mid, end, z.serial % 0x1_0000_0000)
  {
    mid := |PackName(z.primaryNs).value|;
    end := mid + |PackName(admin).value|;
    var w := SoaPacks(z.primaryNs, admin, SoaValues(z));
    SoaIs(z, w);
    SoaDataIs(z, admin, w, mid, end);
    SoaServed(SoaRR(z).value, z, admin, w, mid, end, z.serial % 0x1_0000_0000);
  }

  /** The SOA of a zone the service wrote: owned by the zone, of class IN, with TTL MinTTL; in its data
      the primary name server, the mail address with its first "@" read as ".", the serial truncated to
      32 bits, refresh, retry, expire and MinTTL, in that order. */
  lemma {:induction false} SoaReads(z: Zone) returns (admin: Text, mid: nat, end: nat)
    requires ServableZone(z)
    ensures FirstAtRead(z.adminEmail, admin) && SoaRR(z).Some?
    ensures IsSoa(SoaRR(z).value, z, admin, mid, end, z.serial % 0x1_0000_0000)
  {
    admin := AtToDot(z.adminEmail);
    AtToDotReads(z.adminEmail);
    SoaNamesPack(z);
    mid, end := SoaServes(z, admin);
  }

  /** The serial read from a zone's SOA. */
  ghost predicate ServedSerial(z: Zone, serial: int) {
    && SoaRR(z).Some?
    && exists admin, mid, end :: FirstAtRead(z.adminEmail, admin)
                                 && SoaData(SoaRR(z).value.rdata, z.primaryNs, admin, mid, end, serial, z)
  }

  /** Every call that succeeds advances the serial the SOA of the written zone is served with, in the
      sense of section 3.2 of RFC 1982, while the clock is less than 2^31 seconds past its creation;
      the SOA of any other zone stays as it is. */
  lemma {:induction false} ServedSerialAdvances(encode: Encoder, db: Db, req: Request, now: int, k: Text)
    returns (before: int, after: int)
    requires Consistent(db) && Servable(encode, db)
    requires k in db.zones && k in Serve(encode, db, req, now).db.zones
    ensures var s := Serve(encode, db, req, now);
            && ServedSerial(db.zones[k], before) && ServedSerial(s.db.zones[k], after)
            && (if s.outcome.Done? && Written(req).zone == k then
                  now - db.zones[k].createdAt < 0x8000_0000 ==>
                    || (before < after && after - before < 0x8000_0000)
                    || (before > after && before - after > 0x8000_0000)
                else SoaRR(s.db.zones[k]) == SoaRR(db.zones[k]))
  {
    var s := Serve(encode, db, req, now);
    ServeServable(encode, db, req, now);
    SerialAdvances(encode, db, req, now, k);
    before, after := db.zones[k].serial % 0x1_0000_0000, s.db.zones[k].serial % 0x1_0000_0000;
    var a, m, e := SoaReads(db.zones[k]);
    var a', m', e' := SoaReads(s.db.zones[k]);
    assert ServedSerial(db.zones[k], before);
    assert ServedSerial(s.db.zones[k], after);
  }
}
