/** The Organization entity: a persisted record whose helper methods update
    its fields in place. Timestamps are readings of an integer clock and the
    identifier is supplied by the caller in place of a random UUID. */
module Entity {
  import opened Wrappers

  /** One row of the organization table: the entity's fields as values. */
  datatype OrganizationRecord = OrganizationRecord(
    id: string,
    name: string,
    email: Option<string>,
    license: Option<string>,
    active: bool,
    createdAt: int,
    updatedAt: int)

  /** The record after `activate` (`b` true) or `deactivate` (`b` false). */
  function SetActive(r: OrganizationRecord, b: bool, now: int): OrganizationRecord {
    r.(active := b, updatedAt := now)
  }

  /** The record after `updateInfo`: each supplied argument replaces its field. */
  function InfoUpdated(r: OrganizationRecord, name: Option<string>, email: Option<string>,
                      license: Option<string>, now: int): OrganizationRecord {
    r.(name := name.GetOr(r.name), email := if email.Some? then email else r.email,
       license := if license.Some? then license else r.license, updatedAt := now)
  }

  /** Never updated before it was created. */
  predicate TimestampsOrdered(r: OrganizationRecord) {
    r.createdAt <= r.updatedAt
  }

  class Organization {
    var id: string
    var name: string
    var email: Option<string>
    var license: Option<string>
    var active: bool
    var createdAt: int
    var updatedAt: int

    /** The entity's current field values. */
    function Record(): OrganizationRecord
      reads this
    {
      OrganizationRecord(id, name, email, license, active, createdAt, updatedAt)
    }

    /** Field defaults plus the constructor's three assignments: active,
        created and updated at the current time. */
    constructor (id: string, name: string, email: Option<string>, license: Option<string>, now: int)
      ensures Record() == OrganizationRecord(id, name, email, license, true, now, now)
      ensures TimestampsOrdered(Record())
    {
      this.id := id;
      this.active := true;
      this.createdAt := now;
      this.updatedAt := now;
      this.name := name;
      this.email := email;
      this.license := license;
    }

    function IsActive(): (b: bool)
      reads this
      ensures b <==> Record().active
    {
      active
    }

    method Deactivate(now: int)
      modifies this
      ensures Record() == SetActive(old(Record()), false, now)
      ensures !IsActive()
    {
      active := false;
      updatedAt := now;
    }

    method Activate(now: int)
      modifies this
      ensures Record() == SetActive(old(Record()), true, now)
      ensures IsActive()
    {
      active := true;
      updatedAt := now;
    }

    method UpdateInfo(name: Option<string>, email: Option<string>, license: Option<string>, now: int)
      modifies this
      ensures Record() == InfoUpdated(old(Record()), name, email, license, now)
    {
      if name.Some? { this.name := name.value; }
      if email.Some? { this.email := email; }
      if license.Some? { this.license := license; }
      updatedAt := now;
    }
  }

  /** The helper methods never touch the identifier or the creation time,
      always stamp the update time, and keep the timestamps ordered when the
      clock has not gone back. */
  lemma MutatorsKeepIdentity(r: OrganizationRecord, b: bool, name: Option<string>,
                             email: Option<string>, license: Option<string>, now: int)
    ensures var s := SetActive(r, b, now);
      s.id == r.id && s.createdAt == r.createdAt && s.updatedAt == now
      && s.name == r.name && s.email == r.email && s.license == r.license
      && (TimestampsOrdered(r) && r.updatedAt <= now ==> TimestampsOrdered(s))
    ensures var u := InfoUpdated(r, name, email, license, now);
      u.id == r.id && u.createdAt == r.createdAt && u.active == r.active && u.updatedAt == now
      && (name.None? ==> u.name == r.name) && (name.Some? ==> u.name == name.value)
      && (email.None? ==> u.email == r.email) && (email.Some? ==> u.email == email)
      && (license.None? ==> u.license == r.license) && (license.Some? ==> u.license == license)
      && (TimestampsOrdered(r) && r.updatedAt <= now ==> TimestampsOrdered(u))
  {
  }

  /** Activating or deactivating twice leaves the same record as doing it
      once at the later time: the `active` value is idempotent. */
  lemma SetActiveIdempotent(r: OrganizationRecord, b: bool, t1: int, t2: int)
    ensures SetActive(SetActive(r, b, t1), b, t2) == SetActive(r, b, t2)
    ensures SetActive(SetActive(r, b, t1), b, t2).active == SetActive(r, b, t1).active
  {
  }
}
