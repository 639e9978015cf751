/** `ensure_dns_records_for_droplet` of
    digital_ocean/scripts/python/orchestrate_deploy.py over an abstract DNS zone. */
module DnsRecords {
  import opened Wrappers
  import opened Text

  datatype Record = Record(id: nat, kind: string, name: Option<string>, data: string)

  datatype Host = Root | Www | Traefik | Pgadmin | DjangoAdmin | Flower | Swagger

  datatype Config = Config(
    domain: string, traefik: string, pgadmin: string, djangoAdmin: string, flower: string, swagger: string,
    skip: bool, dryRun: bool, ipv6Enabled: bool)

  /** One address record a run keeps in place. */
  datatype Slot = Slot(kind: string, host: Host)

  const A := "A"
  const AAAA := "AAAA"

  // ---- Names -----------------------------------------------------------------------------

  function Label(cfg: Config, host: Host): string {
    match host
    case Root => "@"
    case Www => "www"
    case Traefik => cfg.traefik
    case Pgadmin => cfg.pgadmin
    case DjangoAdmin => cfg.djangoAdmin
    case Flower => cfg.flower
    case Swagger => cfg.swagger
  }

  /** The names that stand for a host. */
  predicate Names(cfg: Config, host: Host, name: string) {
    || name == Label(cfg, host)
    || (if host.Root? then name == cfg.domain || name == "" else name == Label(cfg, host) + "." + cfg.domain)
  }

  predicate Wildcard(cfg: Config, name: string) {
    Contains(name, cfg.domain) || (name != "" && name[0] == '*')
  }

  predicate LabelName(cfg: Config, name: string) {
    Names(cfg, Traefik, name) || Names(cfg, Pgadmin, name) || Names(cfg, DjangoAdmin, name)
    || Names(cfg, Flower, name) || Names(cfg, Swagger, name)
  }

  /** Which records a run points at the droplet. `www` has no AAAA slot of its own. */
  predicate Matches(cfg: Config, r: Record) {
    && r.name.Some?
    && var name := r.name.value;
       || (r.kind == A && (Names(cfg, Root, name) || Names(cfg, Www, name) || LabelName(cfg, name) || Wildcard(cfg, name)))
       || (r.kind == AAAA && (Names(cfg, Root, name) || LabelName(cfg, name) || Wildcard(cfg, name)))
  }

  // ---- The result of a run -------------------------------------------------------------------

  function AddressFor(kind: string, ipv4: string, ipv6: string): string {
    if kind == A then ipv4 else ipv6
  }

  predicate Wanted(cfg: Config, r: Record, ipv6: string) {
    Matches(cfg, r) && (r.kind == A || ipv6 != "")
  }

  function Pointed(cfg: Config, r: Record, ipv4: string, ipv6: string): Record {
    if Wanted(cfg, r, ipv6) then r.(data := AddressFor(r.kind, ipv4, ipv6)) else r
  }

  function PointAll(cfg: Config, records: seq<Record>, ipv4: string, ipv6: string): (out: seq<Record>)
    ensures |out| == |records| && forall i :: 0 <= i < |records| ==> out[i] == Pointed(cfg, records[i], ipv4, ipv6)
  {
    seq(|records|, i requires 0 <= i < |records| => Pointed(cfg, records[i], ipv4, ipv6))
  }

  predicate Fills(cfg: Config, slot: Slot, r: Record) {
    r.kind == slot.kind && r.name.Some? && Names(cfg, slot.host, r.name.value)
  }

  predicate Found(cfg: Config, slot: Slot, records: seq<Record>) {
    exists i :: 0 <= i < |records| && Fills(cfg, slot, records[i])
  }

  /** The slots in the order in which missing records are created. */
  const SLOTS: seq<Slot> := [
    Slot(A, Root), Slot(A, Www), Slot(AAAA, Root),
    Slot(A, Traefik), Slot(AAAA, Traefik), Slot(A, Pgadmin), Slot(AAAA, Pgadmin),
    Slot(A, DjangoAdmin), Slot(AAAA, DjangoAdmin), Slot(A, Flower), Slot(AAAA, Flower),
    Slot(A, Swagger), Slot(AAAA, Swagger)]

  predicate Creates(cfg: Config, slot: Slot, found: set<Slot>, ipv6: string) {
    slot !in found && (slot.kind == A || ipv6 != "")
  }

  /** A zone and the next id it hands out. */
  datatype Zone = Zone(records: seq<Record>, nextId: nat)

  function Added(cfg: Config, z: Zone, slot: Slot, ipv4: string, ipv6: string): Zone {
    Zone(z.records + [Record(z.nextId, slot.kind, Some(Label(cfg, slot.host)), AddressFor(slot.kind, ipv4, ipv6))], z.nextId + 1)
  }

  function CreateMissing(cfg: Config, z: Zone, slots: seq<Slot>, found: set<Slot>, ipv4: string, ipv6: string): Zone {
    if slots == [] then z
    else
      var before, slot := CreateMissing(cfg, z, slots[..|slots| - 1], found, ipv4, ipv6), slots[|slots| - 1];
      if Creates(cfg, slot, found, ipv6) then Added(cfg, before, slot, ipv4, ipv6) else before
  }

  function FoundSlots(cfg: Config, records: seq<Record>): set<Slot> {
    set slot | slot in SLOTS && Found(cfg, slot, records)
  }

  /** The zone after a full run that is neither skipped nor dry. */
  function Reconciled(cfg: Config, z: Zone, ipv4: string, ipv6: string): Zone {
    CreateMissing(cfg, z.(records := PointAll(cfg, z.records, ipv4, ipv6)), SLOTS, FoundSlots(cfg, z.records), ipv4, ipv6)
  }

  ghost predicate UniqueIds(z: Zone) {
    && (forall i :: 0 <= i < |z.records| ==> z.records[i].id < z.nextId)
    && (forall i, j :: 0 <= i < j < |z.records| ==> z.records[i].id != z.records[j].id)
  }

  // ---- The run ---------------------------------------------------------------------------------

  class DnsClient {
    var records: seq<Record>
    var nextId: nat

    ghost function State(): Zone
      reads this
    {
      Zone(records, nextId)
    }

    method UpdateRecord(id: nat, kind: string, name: Option<string>, data: string)
      modifies this`records
      ensures |records| == |old(records)|
      ensures forall i :: 0 <= i < |records| ==>
        records[i] == if old(records)[i].id == id then Record(id, kind, name, data) else old(records)[i]
    {
      records := seq(|records|, i requires 0 <= i < |records| reads this =>
        if records[i].id == id then Record(id, kind, name, data) else records[i]);
    }

    method CreateRecord(kind: string, name: string, data: string)
      modifies this
      ensures records == old(records) + [Record(old(nextId), kind, Some(name), data)] && nextId == old(nextId) + 1
    {
      records := records + [Record(nextId, kind, Some(name), data)];
      nextId := nextId + 1;
    }

    /** Which slots one record fills; each is looked at on its own. */
    method NoteSlots(cfg: Config, record: Record, found: set<Slot>) returns (noted: set<Slot>)
      ensures forall slot :: slot in noted <==> slot in found || (slot in SLOTS && Fills(cfg, slot, record))
    {
      noted := found;
      for i := 0 to |SLOTS|
        invariant forall slot :: slot in noted <==> slot in found || (slot in SLOTS[..i] && Fills(cfg, slot, record))
      {
        assert SLOTS[..i + 1] == SLOTS[..i] + [SLOTS[i]];
        if Fills(cfg, SLOTS[i], record) {
          noted := noted + {SLOTS[i]};
        }
      }
      assert SLOTS[..|SLOTS|] == SLOTS;
    }

    method PointRecords(cfg: Config, ipv4: string, ipv6: string) returns (found: set<Slot>)
      requires UniqueIds(State())
      modifies this`records
      ensures found == FoundSlots(cfg, old(records))
      ensures records == if cfg.dryRun then old(records) else PointAll(cfg, old(records), ipv4, ipv6)
    {
      var snapshot := records;
      found := {};
      for i := 0 to |snapshot|
        invariant found == FoundSlots(cfg, snapshot[..i])
        invariant |records| == |snapshot|
        invariant forall k :: 0 <= k < |snapshot| ==>
          records[k] == if !cfg.dryRun && k < i then Pointed(cfg, snapshot[k], ipv4, ipv6) else snapshot[k]
      {
        var record := snapshot[i];
        if Matches(cfg, record) {
          found := NoteSlots(cfg, record, found);
          if Wanted(cfg, record, ipv6) && !cfg.dryRun {
            UpdateRecord(record.id, record.kind, record.name, AddressFor(record.kind, ipv4, ipv6));
          }
        }
        FoundSnoc(cfg, snapshot, i);
      }
      assert snapshot[..|snapshot|] == snapshot;
    }

    method CreateRecords(cfg: Config, found: set<Slot>, ipv4: string, ipv6: string)
      modifies this
      ensures State() == if cfg.dryRun then old(State()) else CreateMissing(cfg, old(State()), SLOTS, found, ipv4, ipv6)
    {
      for i := 0 to |SLOTS|
        invariant State() == if cfg.dryRun then old(State()) else CreateMissing(cfg, old(State()), SLOTS[..i], found, ipv4, ipv6)
      {
        assert SLOTS[..i + 1][..i] == SLOTS[..i];
        var slot := SLOTS[i];
        if Creates(cfg, slot, found, ipv6) && !cfg.dryRun {
          CreateRecord(slot.kind, Label(cfg, slot.host), AddressFor(slot.kind, ipv4, ipv6));
        }
      }
      assert SLOTS[..|SLOTS|] == SLOTS;
    }

    /** `done` is false when the run was abandoned for want of an IPv6 address. */
    method EnsureDnsRecords(cfg: Config, ipv4: string, current: string, waited: Option<string>) returns (done: bool)
      requires UniqueIds(State())
      modifies this
      ensures !done <==> !cfg.skip && cfg.ipv6Enabled && current == "" && waited.None?
      ensures cfg.skip || cfg.dryRun || !done ==> State() == old(State())
      ensures !cfg.skip && !cfg.dryRun && done ==>
        State() == Reconciled(cfg, old(State()), ipv4, if cfg.ipv6Enabled && current == "" then waited.value else current)
    {
      if cfg.skip {
        return true;
      }
      var ipv6 := current;
      if cfg.ipv6Enabled && ipv6 == "" {
        if waited.None? {
          return false;
        }
        ipv6 := waited.value;
      }
      var found := PointRecords(cfg, ipv4, ipv6);
      CreateRecords(cfg, found, ipv4, ipv6);
      done := true;
    }
  }

  lemma FilledMatches(cfg: Config, slot: Slot, r: Record)
    requires slot in SLOTS && Fills(cfg, slot, r)
    ensures Matches(cfg, r)
  {
  }

  lemma FoundSnoc(cfg: Config, records: seq<Record>, i: nat)
    requires i < |records|
    ensures forall slot :: slot in FoundSlots(cfg, records[..i + 1]) <==>
      slot in FoundSlots(cfg, records[..i]) || (slot in SLOTS && Fills(cfg, slot, records[i]))
    ensures !Matches(cfg, records[i]) ==> FoundSlots(cfg, records[..i + 1]) == FoundSlots(cfg, records[..i])
  {
    var before, after := records[..i], records[..i + 1];
    forall slot | slot in SLOTS
      ensures Found(cfg, slot, after) <==> Found(cfg, slot, before) || Fills(cfg, slot, records[i])
    {
      if Found(cfg, slot, before) {
        var k :| 0 <= k < |before| && Fills(cfg, slot, before[k]);
        assert after[k] == before[k];
      }
      if Fills(cfg, slot, records[i]) {
        assert after[i] == records[i];
      }
      if Found(cfg, slot, after) {
        var k :| 0 <= k < |after| && Fills(cfg, slot, after[k]);
        if k < i {
          assert before[k] == after[k];
        }
      }
    }
    if !Matches(cfg, records[i]) {
      forall slot | slot in SLOTS ensures !Fills(cfg, slot, records[i]) {
        if Fills(cfg, slot, records[i]) {
          FilledMatches(cfg, slot, records[i]);
        }
      }
    }
  }
}
