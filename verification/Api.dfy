/** The service object: each call validates, writes the store, and only then notifies. */
module Api {
  import opened Bytes
  import opened Validation
  import opened Tables
  import opened Transactions
  import opened Service
  import opened SqlStore
  import WireName

  /** The loop over the two SOA names, then the timers. */
  method ValidateSoa(s: ZoneSpec) returns (ok: bool)
    ensures ok <==> ValidSoa(s)
  {
    var names := [s.primaryNs, AtToDot(s.adminEmail)];
    for i := 0 to |names|
      invariant forall k :: 0 <= k < i ==> WireName.Packable(Lower(names[k]))
    {
      var _, packed := WireName.AppendPacked([], Lower(names[i]));
      if !packed {
        return false;
      }
    }
    assert WireName.Packable(Lower(names[0])) && WireName.Packable(Lower(names[1]));
    return s.refresh >= 0 && s.retry >= 0 && s.expire >= 0 && s.minTtl >= 0;
  }

  function Merged(z: Zone, patch: ZoneSpec): ZoneSpec {
    ZoneSpec(z.name, OrText(patch.primaryNs, z.primaryNs), OrText(patch.adminEmail, z.adminEmail),
             OrInt(patch.refresh, z.refresh), OrInt(patch.retry, z.retry), OrInt(patch.expire, z.expire),
             OrInt(patch.minTtl, z.minTtl))
  }

  /** Each value of the zone is the request's, or the stored one where the request has none. */
  ghost predicate Patched(before: Zone, patch: ZoneSpec, after: Zone) {
    && after.primaryNs == (if patch.primaryNs != [] then patch.primaryNs else before.primaryNs)
    && after.adminEmail == (if patch.adminEmail != [] then patch.adminEmail else before.adminEmail)
    && after.refresh == (if patch.refresh != 0 then patch.refresh else before.refresh)
    && after.retry == (if patch.retry != 0 then patch.retry else before.retry)
    && after.expire == (if patch.expire != 0 then patch.expire else before.expire)
    && after.minTtl == (if patch.minTtl != 0 then patch.minTtl else before.minTtl)
  }

  lemma {:induction false} KeyIsNormal(encode: Encoder, db: Db, k: Text)
    requires Consistent(db) && Servable(encode, db) && k in db.zones
    ensures db.zones[k].name == k && NormalizeZone(k) == k
  {
    SecondNormalizationIsIdentity(k, k);
  }

  class Server {
    const store: Store
    var notices: seq<Change>

    constructor (s: Store)
      ensures store == s && notices == []
    {
      store, notices := s, [];
    }

    /** What a call owes: the tables and outcome of the specification, and its notice sent. */
    twostate predicate Performed(encode: Encoder, req: Request, now: int, out: Outcome)
      reads this, store
    {
      var s := Serve(encode, old(store.Tables()), req, now);
      && store.Tables() == s.db && out == s.outcome
      && notices == old(notices) + if s.notice.Some? then [s.notice.value] else []
    }

    method CreateZone(encode: Encoder, spec: ZoneSpec, now: int) returns (out: Outcome)
      modifies this, store
      ensures Performed(encode, CreateZoneReq(spec), now, out)
    {
      var s := WithDefaults(spec);
      var named := ValidateName(s.name);
      if !named {
        return Invalid;
      }
      var timed := ValidateSoa(s);
      if !timed {
        return Invalid;
      }
      out := store.CreateZone(s, now);
      if out.Done? {
        notices := notices + [ZoneChange(NormalizeZone(s.name))];
      }
    }

    /** The stored values stand where the request leaves a field out. */
    method UpdateZone(encode: Encoder, patch: ZoneSpec, now: int) returns (out: Outcome)
      requires Consistent(store.Tables()) && Servable(encode, store.Tables())
      modifies this, store
      ensures var name := NormalizeZone(patch.name);
              if name in old(store.zones)
              then Performed(encode, UpdateZoneReq(Merged(old(store.zones[name]), patch)), now, out)
              else Performed(encode, UpdateZoneReq(patch), now, out) && out == NotFound
      ensures out.Done? ==>
                var name := NormalizeZone(patch.name);
                && name in old(store.zones) && name in store.zones
                && Patched(old(store.zones[name]), patch, store.zones[name])
    {
      var name := NormalizeZone(patch.name);
      if name !in store.zones {
        return NotFound;
      }
      var spec := Merged(store.zones[name], patch);
      KeyIsNormal(encode, store.Tables(), name);
      var timed := ValidateSoa(spec);
      if !timed {
        return Invalid;
      }
      out := store.UpdateZone(spec, now);
      if out.Done? {
        notices := notices + [ZoneChange(NormalizeZone(spec.name))];
      }
    }

    method DeleteZone(encode: Encoder, name0: Text, now: int) returns (out: Outcome)
      modifies this, store
      ensures Performed(encode, DeleteZoneReq(name0), now, out)
    {
      var name := NormalizeZone(name0);
      out := store.DeleteZone(name);
      if out.Done? {
        notices := notices + [ZoneChange(name)];
      }
    }

    method CreateRecord(encode: Encoder, zone0: Text, name0: Text, rtype: u16, ttl0: i32, rdata0: Text, now: int,
                        skip: nat)
      returns (out: Outcome, made: Option<Row>)
      modifies this, store
      ensures Performed(encode, CreateRecordReq(zone0, name0, rtype, ttl0, rdata0, skip), now, out)
      ensures out.Done? ==>
                && made.Some? && IsRow(store.rows, made.value) && made.value.ttl == (if ttl0 == 0 then 300 else ttl0)
                && var zone := NormalizeZone(zone0);
                   Same(made.value, zone, NormalizeName(zone, name0), rtype, TrimSpace(rdata0))
    {
      var zone := NormalizeZone(zone0);
      if zone == [] || name0 == [] || !SupportedType(rtype) {
        return Invalid, None;
      }
      var name := NormalizeName(zone, name0);
      var named := ValidateName(name);
      if !named {
        return Invalid, None;
      }
      var rdata := TrimSpace(rdata0);
      var ttl := OrInt(ttl0, DEFAULT_TTL);
      if encode(rtype, rdata).None? || ttl < 0 || ttl > MAX_TTL {
        return Invalid, None;
      }
      SecondNormalizationIsIdentity(zone, name);
      out, made := store.CreateRecord(zone, name, rtype, ttl, rdata, now, skip);
      if out.Done? {
        notices := notices + [RecordChange(zone, name)];
      }
    }

    method DeleteRecord(encode: Encoder, zone0: Text, name0: Text, rtype: u16, rdata0: Text, now: int)
      returns (out: Outcome)
      modifies this, store
      ensures Performed(encode, DeleteRecordReq(zone0, name0, rtype, rdata0), now, out)
    {
      var zone := NormalizeZone(zone0);
      var name := NormalizeName(zone, name0);
      out := store.DeleteRecord(zone, name, rtype, TrimSpace(rdata0), now);
      if out.Done? {
        notices := notices + [RecordChange(zone, name)];
      }
    }
  }
}
