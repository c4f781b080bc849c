/** The organization service: the create path, which enforces the unique
    name rule before inserting, and the read-only result envelopes. The
    database table is the `table` field; each call works on it in turn. */
module Service {
  import opened Wrappers
  import opened Dto
  import opened Entity
  import opened Repository

  const DuplicateNameMessage := "An organization with this name already exists"

  datatype ListResult = ListResult(data: seq<OrganizationRecord>, count: int)
  datatype SearchResult = SearchResult(data: seq<OrganizationRecord>, count: int, query: string)

  /** `value || undefined` on an optional string: the empty string is dropped. */
  function OrUndefined(value: Option<string>): (r: Option<string>)
    ensures r != Some("")
    ensures r.Some? ==> r == value
    ensures value.Some? && value.value != "" ==> r == value
  {
    if value == Some("") then None else value
  }

  /** The row a successful create inserts. */
  function NewRecord(dto: CreateOrganizationDto, id: string, now: int): (r: OrganizationRecord)
    ensures r.id == id && r.name == dto.name
    ensures r.email == OrUndefined(dto.email) && r.license == OrUndefined(dto.license)
    ensures r.active == dto.active.GetOr(true)
    ensures r.createdAt == now && r.updatedAt == now && TimestampsOrdered(r)
  {
    OrganizationRecord(id, dto.name, OrUndefined(dto.email), OrUndefined(dto.license),
                       dto.active.GetOr(true), now, now)
  }

  /** No two rows share a name. */
  predicate NamesDistinct(table: seq<OrganizationRecord>) {
    forall i, j | 0 <= i < j < |table| :: table[i].name != table[j].name
  }

  /** Appending a row whose name is not yet taken keeps names distinct. */
  lemma AppendFreshNameKeepsNamesDistinct(table: seq<OrganizationRecord>, r: OrganizationRecord)
    requires !ExistsByName(table, r.name)
    ensures NamesDistinct(table) ==> NamesDistinct(table + [r])
  {
  }

  /** The effect of one create on the table, as a value: the new table and
      what the call returns. */
  function CreateInTable(table: seq<OrganizationRecord>, dto: CreateOrganizationDto, id: string, now: int)
    : (result: (seq<OrganizationRecord>, Outcome<OrganizationRecord>))
    ensures ExistsByName(table, dto.name) ==>
      result == (table, Threw(Thrown(true, DuplicateNameMessage)))
    ensures !ExistsByName(table, dto.name) ==>
      result.1 == Returned(NewRecord(dto, id, now)) && result.0 == table + [result.1.value]
    ensures NamesDistinct(table) ==> NamesDistinct(result.0)
    ensures |result.0| == |table| + (if result.1.Returned? then 1 else 0)
  {
    if ExistsByName(table, dto.name) then
      (table, Threw(Thrown(true, DuplicateNameMessage)))
    else
      var r := NewRecord(dto, id, now);
      AppendFreshNameKeepsNamesDistinct(table, r);
      (table + [r], Returned(r))
  }

  /** Creating the same name twice in a row inserts it once: the second call
      is rejected and leaves the table as the first call left it. */
  lemma SecondCreateWithSameNameRejected(table: seq<OrganizationRecord>, dto: CreateOrganizationDto,
                                         id1: string, id2: string, t1: int, t2: int)
    requires !ExistsByName(table, dto.name)
    ensures var (after1, r1) := CreateInTable(table, dto, id1, t1);
      var (after2, r2) := CreateInTable(after1, dto, id2, t2);
      r1.Returned? && r2 == Threw(Thrown(true, DuplicateNameMessage)) && after2 == after1
      && |Filter(after2, (x: OrganizationRecord) => x.name == dto.name)| == 1
  {
    var (after1, r1) := CreateInTable(table, dto, id1, t1);
    assert after1[|table|] in after1;
    var same := (x: OrganizationRecord) => x.name == dto.name;
    assert Filter(table, same) == [];
    assert Filter([after1[|table|]], same) == [after1[|table|]];
    FilterConcat(table, [after1[|table|]], same);
  }

  /** Filtering distributes over concatenation. */
  lemma {:induction false} FilterConcat(a: seq<OrganizationRecord>, b: seq<OrganizationRecord>,
                                        p: OrganizationRecord -> bool)
    ensures Filter(a + b, p) == Filter(a, p) + Filter(b, p)
    decreases |a|
  {
    if a != [] {
      var head := if p(a[0]) then [a[0]] else [];
      assert (a + b)[0] == a[0] && (a + b)[1..] == a[1..] + b;
      assert Filter(a + b, p) == head + Filter(a[1..] + b, p);
      FilterConcat(a[1..], b, p);
      assert Filter(a, p) == head + Filter(a[1..], p);
    } else {
      assert a + b == b;
    }
  }

  class OrganizationService {
    /** The rows of the organization table. */
    var table: seq<OrganizationRecord>

    constructor (rows: seq<OrganizationRecord>)
      ensures table == rows
    {
      table := rows;
    }

    /** Rejects a name that is already taken; otherwise builds the entity,
        applies the `active` override and inserts its row. */
    method CreateOrganization(dto: CreateOrganizationDto, id: string, now: int)
      returns (result: Outcome<Organization>)
      modifies this
      ensures (table, match result case Returned(o) => Returned(o.Record()) case Threw(e) => Threw(e))
              == CreateInTable(old(table), dto, id, now)
      ensures result.Returned? ==> fresh(result.value)
    {
      if ExistsByName(table, dto.name) {
        return Threw(Thrown(true, DuplicateNameMessage));
      }
      var organization := new Organization(id, dto.name, OrUndefined(dto.email), OrUndefined(dto.license), now);
      if dto.active.Some? {
        organization.active := dto.active.value;
      }
      table := table + [organization.Record()];
      result := Returned(organization);
    }

    function GetAllOrganizations(): (r: ListResult)
      reads this
      ensures r.data == table && r.count == |r.data|
    {
      ListResult(table, |table|)
    }

    function GetStats(): (s: Stats)
      reads this
      ensures s == Repository.GetStats(table)
      ensures s.active + s.inactive == s.total && s.total == |table|
    {
      Repository.GetStats(table)
    }

    function GetActiveOrganizations(): (r: ListResult)
      reads this
      ensures r.data == FindActive(table) && r.count == |r.data|
      ensures forall x :: x in r.data <==> x in table && x.active
    {
      var active := FindActive(table);
      assert forall x :: x in active <==> multiset(active)[x] > 0;
      ListResult(active, |active|)
    }

    function SearchOrganizations(name: string): (r: SearchResult)
      reads this
      ensures r.query == name && r.count == |r.data|
      ensures r.data == FindByNameContaining(table, name)
      ensures forall x | x in r.data :: x in table
    {
      var found := FindByNameContaining(table, name);
      assert forall x :: x in found <==> multiset(found)[x] > 0;
      SearchResult(found, |found|, name)
    }
  }
}
