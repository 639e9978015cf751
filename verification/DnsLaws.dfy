/** Laws of the DNS reconciler: it converges, touches nothing else, and rests once
    converged. */
module DnsLaws {
  import opened Wrappers
  import opened Text
  import opened DnsRecords

  // ---- Creation ---------------------------------------------------------------------------

  /** `r` was created for a slot of `slots` that was missing. */
  ghost predicate CreatedFor(cfg: Config, r: Record, slots: seq<Slot>, found: set<Slot>, ipv4: string, ipv6: string) {
    exists slot :: slot in slots && Creates(cfg, slot, found, ipv6) && r.kind == slot.kind
      && r.name == Some(Label(cfg, slot.host)) && r.data == AddressFor(slot.kind, ipv4, ipv6)
  }

  ghost predicate SlotServed(cfg: Config, slot: Slot, records: seq<Record>, ipv4: string, ipv6: string) {
    exists i :: 0 <= i < |records| && Fills(cfg, slot, records[i]) && records[i].data == AddressFor(slot.kind, ipv4, ipv6)
  }

  lemma ServedSnoc(cfg: Config, slot: Slot, records: seq<Record>, r: Record, ipv4: string, ipv6: string)
    ensures SlotServed(cfg, slot, records, ipv4, ipv6) ==> SlotServed(cfg, slot, records + [r], ipv4, ipv6)
    ensures Fills(cfg, slot, r) && r.data == AddressFor(slot.kind, ipv4, ipv6) ==> SlotServed(cfg, slot, records + [r], ipv4, ipv6)
  {
    var more := records + [r];
    if SlotServed(cfg, slot, records, ipv4, ipv6) {
      var i :| 0 <= i < |records| && Fills(cfg, slot, records[i]) && records[i].data == AddressFor(slot.kind, ipv4, ipv6);
      assert more[i] == records[i];
    }
    assert more[|records|] == r;
  }

  lemma {:induction false} CreateExtends(cfg: Config, z: Zone, slots: seq<Slot>, found: set<Slot>, ipv4: string, ipv6: string)
    ensures var out := CreateMissing(cfg, z, slots, found, ipv4, ipv6);
      && z.records <= out.records && z.nextId <= out.nextId
      && (UniqueIds(z) ==> UniqueIds(out))
      && (out == z <==> forall slot :: slot in slots ==> !Creates(cfg, slot, found, ipv6))
      && |out.records| - |z.records| == out.nextId - z.nextId
  {
    if slots == [] {
    } else {
      var before, slot := slots[..|slots| - 1], slots[|slots| - 1];
      CreateExtends(cfg, z, before, found, ipv4, ipv6);
      assert slots == before + [slot];
      assert slot in slots;
    }
  }

  lemma {:induction false} CreateServes(cfg: Config, z: Zone, slots: seq<Slot>, found: set<Slot>, ipv4: string, ipv6: string, slot: Slot)
    requires slot in slots && Creates(cfg, slot, found, ipv6)
    ensures SlotServed(cfg, slot, CreateMissing(cfg, z, slots, found, ipv4, ipv6).records, ipv4, ipv6)
  {
    var before, last := slots[..|slots| - 1], slots[|slots| - 1];
    var b := CreateMissing(cfg, z, before, found, ipv4, ipv6);
    if slot in before {
      CreateServes(cfg, z, before, found, ipv4, ipv6, slot);
    } else {
      assert slots == before + [last];
    }
    var added := Added(cfg, b, last, ipv4, ipv6);
    ServedSnoc(cfg, slot, b.records, added.records[|b.records|], ipv4, ipv6);
  }

  lemma {:induction false} CreateOnlyMissing(
    cfg: Config, z: Zone, slots: seq<Slot>, found: set<Slot>, ipv4: string, ipv6: string, i: nat)
    requires |z.records| <= i < |CreateMissing(cfg, z, slots, found, ipv4, ipv6).records|
    ensures CreatedFor(cfg, CreateMissing(cfg, z, slots, found, ipv4, ipv6).records[i], slots, found, ipv4, ipv6)
  {
    var before, last := slots[..|slots| - 1], slots[|slots| - 1];
    var b := CreateMissing(cfg, z, before, found, ipv4, ipv6);
    assert slots == before + [last];
    if i < |b.records| {
      CreateOnlyMissing(cfg, z, before, found, ipv4, ipv6, i);
    } else {
      assert last in slots;
    }
  }

  // ---- A run ---------------------------------------------------------------------------------

  predicate Required(slot: Slot, ipv6: string) {
    slot in SLOTS && (slot.kind == A || ipv6 != "")
  }

  /** Every required host has a record with the droplet's address, and every record the
      run looks after has it too. */
  ghost predicate Converged(cfg: Config, records: seq<Record>, ipv4: string, ipv6: string) {
    && (forall slot :: Required(slot, ipv6) ==> SlotServed(cfg, slot, records, ipv4, ipv6))
    && (forall i :: 0 <= i < |records| && Wanted(cfg, records[i], ipv6) ==> records[i].data == AddressFor(records[i].kind, ipv4, ipv6))
  }

  lemma PointServes(cfg: Config, records: seq<Record>, ipv4: string, ipv6: string, slot: Slot)
    requires Required(slot, ipv6) && Found(cfg, slot, records)
    ensures SlotServed(cfg, slot, PointAll(cfg, records, ipv4, ipv6), ipv4, ipv6)
  {
    var i :| 0 <= i < |records| && Fills(cfg, slot, records[i]);
    FilledMatches(cfg, slot, records[i]);
    assert Fills(cfg, slot, PointAll(cfg, records, ipv4, ipv6)[i]);
  }

  lemma ServedPrefix(cfg: Config, slot: Slot, a: seq<Record>, b: seq<Record>, ipv4: string, ipv6: string)
    requires a <= b && SlotServed(cfg, slot, a, ipv4, ipv6)
    ensures SlotServed(cfg, slot, b, ipv4, ipv6)
  {
    var i :| 0 <= i < |a| && Fills(cfg, slot, a[i]) && a[i].data == AddressFor(slot.kind, ipv4, ipv6);
    assert b[i] == a[i];
  }

  /** After a run, the zone has converged. */
  lemma RunConverges(cfg: Config, z: Zone, ipv4: string, ipv6: string)
    ensures Converged(cfg, Reconciled(cfg, z, ipv4, ipv6).records, ipv4, ipv6)
  {
    var pointed := z.(records := PointAll(cfg, z.records, ipv4, ipv6));
    var found := FoundSlots(cfg, z.records);
    var out := Reconciled(cfg, z, ipv4, ipv6);
    CreateExtends(cfg, pointed, SLOTS, found, ipv4, ipv6);
    forall slot | Required(slot, ipv6) ensures SlotServed(cfg, slot, out.records, ipv4, ipv6) {
      if slot in found {
        PointServes(cfg, z.records, ipv4, ipv6, slot);
        ServedPrefix(cfg, slot, pointed.records, out.records, ipv4, ipv6);
      } else {
        CreateServes(cfg, pointed, SLOTS, found, ipv4, ipv6, slot);
      }
    }
    forall i | 0 <= i < |out.records| && Wanted(cfg, out.records[i], ipv6)
      ensures out.records[i].data == AddressFor(out.records[i].kind, ipv4, ipv6)
    {
      if i < |z.records| {
        assert out.records[i] == Pointed(cfg, z.records[i], ipv4, ipv6);
      } else {
        CreateOnlyMissing(cfg, pointed, SLOTS, found, ipv4, ipv6, i);
      }
    }
  }

  /** A run leaves other records as they are, changes nothing but the address of the
      records it looks after, and creates records only for slots that had none. */
  lemma RunTouchesNothingElse(cfg: Config, z: Zone, ipv4: string, ipv6: string)
    requires UniqueIds(z)
    ensures var out := Reconciled(cfg, z, ipv4, ipv6);
      && UniqueIds(out) && |out.records| >= |z.records|
      && (forall i :: 0 <= i < |z.records| && !Wanted(cfg, z.records[i], ipv6) ==> out.records[i] == z.records[i])
      && (forall i :: 0 <= i < |z.records| ==> out.records[i] == z.records[i].(data := out.records[i].data))
      && (forall i :: |z.records| <= i < |out.records| ==>
            CreatedFor(cfg, out.records[i], SLOTS, FoundSlots(cfg, z.records), ipv4, ipv6))
  {
    var pointed := z.(records := PointAll(cfg, z.records, ipv4, ipv6));
    var out := Reconciled(cfg, z, ipv4, ipv6);
    CreateExtends(cfg, pointed, SLOTS, FoundSlots(cfg, z.records), ipv4, ipv6);
    forall i | 0 <= i < |z.records| ensures out.records[i] == Pointed(cfg, z.records[i], ipv4, ipv6) {
      assert out.records[i] == pointed.records[i];
    }
    forall i | |z.records| <= i < |out.records|
      ensures CreatedFor(cfg, out.records[i], SLOTS, FoundSlots(cfg, z.records), ipv4, ipv6)
    {
      CreateOnlyMissing(cfg, pointed, SLOTS, FoundSlots(cfg, z.records), ipv4, ipv6, i);
    }
  }

  lemma ServedIsFound(cfg: Config, slot: Slot, records: seq<Record>, ipv4: string, ipv6: string)
    requires SlotServed(cfg, slot, records, ipv4, ipv6)
    ensures Found(cfg, slot, records)
  {
  }

  /** A run changes nothing exactly when the zone has converged. */
  lemma RestsIffConverged(cfg: Config, z: Zone, ipv4: string, ipv6: string)
    ensures Reconciled(cfg, z, ipv4, ipv6) == z <==> Converged(cfg, z.records, ipv4, ipv6)
  {
    if Reconciled(cfg, z, ipv4, ipv6) == z {
      RunConverges(cfg, z, ipv4, ipv6);
    }
    if Converged(cfg, z.records, ipv4, ipv6) {
      assert PointAll(cfg, z.records, ipv4, ipv6) == z.records;
      forall slot | slot in SLOTS ensures !Creates(cfg, slot, FoundSlots(cfg, z.records), ipv6) {
        if Required(slot, ipv6) {
          ServedIsFound(cfg, slot, z.records, ipv4, ipv6);
        }
      }
      CreateExtends(cfg, z, SLOTS, FoundSlots(cfg, z.records), ipv4, ipv6);
    }
  }

  /** So a second run creates nothing and changes nothing. */
  lemma SecondRunRests(cfg: Config, z: Zone, ipv4: string, ipv6: string)
    ensures var once := Reconciled(cfg, z, ipv4, ipv6);
      Reconciled(cfg, once, ipv4, ipv6) == once
  {
    RunConverges(cfg, z, ipv4, ipv6);
    RestsIffConverged(cfg, Reconciled(cfg, z, ipv4, ipv6), ipv4, ipv6);
  }

  // ---- Distinct labels -------------------------------------------------------------------------

  ghost predicate DistinctLabels(cfg: Config) {
    forall g, h :: Label(cfg, g) == Label(cfg, h) ==> g == h
  }

  ghost predicate DistinctSlots(slots: seq<Slot>) {
    forall i, j :: 0 <= i < j < |slots| ==> slots[i] != slots[j]
  }

  predicate SameName(a: Record, b: Record) {
    a.kind == b.kind && a.name == b.name
  }

  lemma {:induction false} CreatedNamesDiffer(
    cfg: Config, z: Zone, slots: seq<Slot>, found: set<Slot>, ipv4: string, ipv6: string, i: nat, j: nat)
    requires DistinctLabels(cfg) && DistinctSlots(slots)
    requires |z.records| <= i < j < |CreateMissing(cfg, z, slots, found, ipv4, ipv6).records|
    ensures var out := CreateMissing(cfg, z, slots, found, ipv4, ipv6).records; !SameName(out[i], out[j])
  {
    var before, last := slots[..|slots| - 1], slots[|slots| - 1];
    var b := CreateMissing(cfg, z, before, found, ipv4, ipv6).records;
    if j < |b| {
      CreatedNamesDiffer(cfg, z, before, found, ipv4, ipv6, i, j);
    } else {
      CreateOnlyMissing(cfg, z, before, found, ipv4, ipv6, i);
      assert last !in before;
    }
  }

  /** With distinct labels a run creates each name at most once per record type. */
  lemma RunCreatesNamesOnce(cfg: Config, z: Zone, ipv4: string, ipv6: string, i: nat, j: nat)
    requires DistinctLabels(cfg)
    requires |z.records| <= i < j < |Reconciled(cfg, z, ipv4, ipv6).records|
    ensures !SameName(Reconciled(cfg, z, ipv4, ipv6).records[i], Reconciled(cfg, z, ipv4, ipv6).records[j])
  {
    var pointed := z.(records := PointAll(cfg, z.records, ipv4, ipv6));
    CreatedNamesDiffer(cfg, pointed, SLOTS, FoundSlots(cfg, z.records), ipv4, ipv6, i, j);
  }

  // ---- Host by host, in plain names ---------------------------------------------------------------

  /** The names under which a host is reached. */
  function HostNames(cfg: Config, h: Host): set<string> {
    match h
    case Root => {"@", "", cfg.domain}
    case Www => {"www", "www." + cfg.domain}
    case Traefik => {cfg.traefik, cfg.traefik + "." + cfg.domain}
    case Pgadmin => {cfg.pgadmin, cfg.pgadmin + "." + cfg.domain}
    case DjangoAdmin => {cfg.djangoAdmin, cfg.djangoAdmin + "." + cfg.domain}
    case Flower => {cfg.flower, cfg.flower + "." + cfg.domain}
    case Swagger => {cfg.swagger, cfg.swagger + "." + cfg.domain}
  }

  predicate Named(r: Record, kind: string, names: set<string>) {
    r.kind == kind && r.name.Some? && r.name.value in names
  }

  ghost predicate Served(records: seq<Record>, kind: string, names: set<string>, address: string) {
    exists i :: 0 <= i < |records| && Named(records[i], kind, names) && records[i].data == address
  }

  lemma NamesIff(cfg: Config, h: Host, name: string)
    ensures Names(cfg, h, name) <==> name in HostNames(cfg, h)
  {
    assert "www" + "." == "www.";
  }

  lemma FillsIsNamed(cfg: Config, kind: string, h: Host, r: Record)
    ensures Fills(cfg, Slot(kind, h), r) <==> Named(r, kind, HostNames(cfg, h))
  {
    if r.name.Some? {
      NamesIff(cfg, h, r.name.value);
    }
  }

  lemma KindsDiffer()
    ensures "A" != "AAAA" && A == "A" && AAAA == "AAAA"
  {
    assert |"A"| == 1 && |"AAAA"| == 4;
  }

  lemma EveryHostHasSlots(h: Host)
    ensures Slot("A", h) in SLOTS && (h != Www ==> Slot("AAAA", h) in SLOTS)
  {
  }

  lemma SlotIsServed(cfg: Config, kind: string, h: Host, records: seq<Record>, ipv4: string, ipv6: string)
    requires SlotServed(cfg, Slot(kind, h), records, ipv4, ipv6)
    ensures Served(records, kind, HostNames(cfg, h), AddressFor(kind, ipv4, ipv6))
  {
    var i :| 0 <= i < |records| && Fills(cfg, Slot(kind, h), records[i]) && records[i].data == AddressFor(kind, ipv4, ipv6);
    FillsIsNamed(cfg, kind, h, records[i]);
  }

  /** After a run every host, `www` included, has an A record with the droplet's address;
      when IPv6 is known, every host but `www` has an AAAA record with that address. */
  lemma EveryHostIsServed(cfg: Config, z: Zone, ipv4: string, ipv6: string, h: Host)
    ensures var records := Reconciled(cfg, z, ipv4, ipv6).records;
      && Served(records, "A", HostNames(cfg, h), ipv4)
      && (ipv6 != "" && h != Www ==> Served(records, "AAAA", HostNames(cfg, h), ipv6))
  {
    KindsDiffer();
    EveryHostHasSlots(h);
    RunConverges(cfg, z, ipv4, ipv6);
    var records := Reconciled(cfg, z, ipv4, ipv6).records;
    assert Required(Slot("A", h), ipv6) && SlotServed(cfg, Slot("A", h), records, ipv4, ipv6);
    SlotIsServed(cfg, "A", h, records, ipv4, ipv6);
    if ipv6 != "" && h != Www {
      assert Required(Slot("AAAA", h), ipv6) && SlotServed(cfg, Slot("AAAA", h), records, ipv4, ipv6);
      SlotIsServed(cfg, "AAAA", h, records, ipv4, ipv6);
    }
  }

  /** The short name of a host, which a created record gets. */
  function ShortName(cfg: Config, h: Host): string {
    match h
    case Root => "@"
    case Www => "www"
    case Traefik => cfg.traefik
    case Pgadmin => cfg.pgadmin
    case DjangoAdmin => cfg.djangoAdmin
    case Flower => cfg.flower
    case Swagger => cfg.swagger
  }

  /** `r` is the record of this kind that `h` lacked. */
  predicate MadeFor(cfg: Config, before: seq<Record>, r: Record, kind: string, h: Host, address: string) {
    && r.kind == kind && r.name == Some(ShortName(cfg, h)) && r.data == address
    && forall j :: 0 <= j < |before| ==> !Named(before[j], kind, HostNames(cfg, h))
  }

  /** Every record a run creates is the A record of a host that had none, or, when IPv6
      is known, the AAAA record of a host other than `www` that had none. */
  lemma CreatedAreMissing(cfg: Config, z: Zone, ipv4: string, ipv6: string, i: nat)
    requires |z.records| <= i < |Reconciled(cfg, z, ipv4, ipv6).records|
    ensures var r := Reconciled(cfg, z, ipv4, ipv6).records[i];
      || (exists h :: MadeFor(cfg, z.records, r, "A", h, ipv4))
      || (ipv6 != "" && exists h :: h != Www && MadeFor(cfg, z.records, r, "AAAA", h, ipv6))
  {
    KindsDiffer();
    var pointed := z.(records := PointAll(cfg, z.records, ipv4, ipv6));
    var found := FoundSlots(cfg, z.records);
    CreateOnlyMissing(cfg, pointed, SLOTS, found, ipv4, ipv6, i);
    var r := Reconciled(cfg, z, ipv4, ipv6).records[i];
    var slot :| slot in SLOTS && Creates(cfg, slot, found, ipv6) && r.kind == slot.kind
      && r.name == Some(Label(cfg, slot.host)) && r.data == AddressFor(slot.kind, ipv4, ipv6);
    SlotKinds(slot);
    CreatedWasMissing(cfg, z.records, r, slot, ipv4, ipv6);
  }

  lemma CreatedWasMissing(cfg: Config, before: seq<Record>, r: Record, slot: Slot, ipv4: string, ipv6: string)
    requires slot in SLOTS && slot !in FoundSlots(cfg, before)
    requires r.kind == slot.kind && r.name == Some(Label(cfg, slot.host)) && r.data == AddressFor(slot.kind, ipv4, ipv6)
    ensures MadeFor(cfg, before, r, slot.kind, slot.host, AddressFor(slot.kind, ipv4, ipv6))
  {
    forall j | 0 <= j < |before| ensures !Named(before[j], slot.kind, HostNames(cfg, slot.host)) {
      FillsIsNamed(cfg, slot.kind, slot.host, before[j]);
    }
  }

  lemma SlotKinds(slot: Slot)
    requires slot in SLOTS
    ensures slot.kind == "A" || (slot.kind == "AAAA" && slot.host != Www)
  {
  }

  /** The records that a run points at the droplet: those of a host, and any whose name
      holds the domain or starts with '*'. AAAA records of `www` alone are left. */
  predicate LookedAfter(cfg: Config, r: Record) {
    && r.name.Some? && (r.kind == "A" || r.kind == "AAAA")
    && var name := r.name.value;
       || (exists h: Host :: name in HostNames(cfg, h) && !(r.kind == "AAAA" && h.Www?))
       || Contains(name, cfg.domain) || (name != "" && name[0] == '*')
  }

  lemma MatchesIff(cfg: Config, r: Record)
    ensures Matches(cfg, r) <==> LookedAfter(cfg, r)
  {
    KindsDiffer();
    if r.name.Some? {
      var name := r.name.value;
      forall h: Host ensures Names(cfg, h, name) <==> name in HostNames(cfg, h) {
        NamesIff(cfg, h, name);
      }
    }
  }

  /** Record by record, what a run leaves of the zone. */
  lemma RecordAfterRun(cfg: Config, z: Zone, ipv4: string, ipv6: string, i: nat)
    requires i < |z.records|
    ensures var r, out := z.records[i], Reconciled(cfg, z, ipv4, ipv6).records;
      i < |out| && out[i] ==
        if LookedAfter(cfg, r) && r.kind == "A" then r.(data := ipv4)
        else if LookedAfter(cfg, r) && r.kind == "AAAA" && ipv6 != "" then r.(data := ipv6)
        else r
  {
    KindsDiffer();
    MatchesIff(cfg, z.records[i]);
    var pointed := z.(records := PointAll(cfg, z.records, ipv4, ipv6));
    CreateExtends(cfg, pointed, SLOTS, FoundSlots(cfg, z.records), ipv4, ipv6);
    assert Reconciled(cfg, z, ipv4, ipv6).records[i] == pointed.records[i];
  }
}
