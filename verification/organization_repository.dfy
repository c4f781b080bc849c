/** The organization repository: read-only queries over the rows of the
    organization table. Rows come back in table order. */
module Repository {
  import opened Wrappers
  import opened Text
  import opened Entity

  datatype Stats = Stats(total: int, active: int, inactive: int)

  /** The rows satisfying `p`, in table order. Its meaning is `FilterSpec`,
      kept apart so that code merely calling `Filter` does not carry it. */
  function Filter(table: seq<OrganizationRecord>, p: OrganizationRecord -> bool): (r: seq<OrganizationRecord>)
    ensures |r| <= |table|
  {
    if table == [] then []
    else (if p(table[0]) then [table[0]] else []) + Filter(table[1..], p)
  }

  /** `Filter` keeps each row satisfying `p` as often as it occurs in the
      table, and no other row. */
  lemma {:induction false} FilterSpec(table: seq<OrganizationRecord>, p: OrganizationRecord -> bool)
    ensures var r := Filter(table, p);
      (forall x :: multiset(r)[x] == if p(x) then multiset(table)[x] else 0)
      && (forall x :: x in r <==> x in table && p(x))
  {
    if table != [] {
      FilterSpec(table[1..], p);
      assert table == [table[0]] + table[1..];
    }
  }

  /** The first row satisfying `p`, if any: `findOne`. */
  function FindFirst(table: seq<OrganizationRecord>, p: OrganizationRecord -> bool): (r: Option<OrganizationRecord>)
    ensures r.None? <==> forall x | x in table :: !p(x)
    ensures r.Some? ==> r.value in table && p(r.value)
  {
    if table == [] then None
    else if p(table[0]) then Some(table[0])
    else
      assert table == [table[0]] + table[1..];
      FindFirst(table[1..], p)
  }

  /** Every filtering query returns a sub-collection of the table. */
  lemma FilterIsSubCollection(table: seq<OrganizationRecord>, p: OrganizationRecord -> bool)
    ensures multiset(Filter(table, p)) <= multiset(table)
  {
    FilterSpec(table, p);
  }

  /** `find({ active: true })`. */
  function FindActive(table: seq<OrganizationRecord>): (r: seq<OrganizationRecord>)
    ensures forall x :: multiset(r)[x] == if x.active then multiset(table)[x] else 0
  {
    FilterSpec(table, (x: OrganizationRecord) => x.active);
    Filter(table, (x: OrganizationRecord) => x.active)
  }

  /** `find({ active: false })`. */
  function FindInactive(table: seq<OrganizationRecord>): (r: seq<OrganizationRecord>)
    ensures forall x :: multiset(r)[x] == if !x.active then multiset(table)[x] else 0
  {
    FilterSpec(table, (x: OrganizationRecord) => !x.active);
    Filter(table, (x: OrganizationRecord) => !x.active)
  }

  /** The active and the inactive rows together are the whole table. */
  lemma ActiveInactivePartition(table: seq<OrganizationRecord>)
    ensures multiset(FindActive(table)) + multiset(FindInactive(table)) == multiset(table)
    ensures |FindActive(table)| + |FindInactive(table)| == |table|
  {
  }

  // ---------------------------------------------------------------------
  // SQL LIKE

  /** SQLite's `LIKE` without an ESCAPE clause: `%` matches any run of
      characters, `_` any single character, every other character itself.
      Both operands reach it already lower-cased, so its own ASCII case
      folding changes nothing. */
  function Like(s: string, pattern: string): bool
    decreases |s| + |pattern|
  {
    if pattern == [] then s == []
    else if pattern[0] == '%' then Like(s, pattern[1..]) || (s != [] && Like(s[1..], pattern))
    else s != [] && (pattern[0] == '_' || s[0] == pattern[0]) && Like(s[1..], pattern[1..])
  }

  predicate HasNoWildcards(t: string) {
    forall i | 0 <= i < |t| :: t[i] != '%' && t[i] != '_'
  }

  /** `LOWER(name) LIKE LOWER('%' || term || '%')`. */
  predicate NameMatches(r: OrganizationRecord, term: string) {
    Like(Lower(r.name), Lower("%" + term + "%"))
  }

  /** The rows whose name matches the search term under `LIKE`. */
  function FindByNameContaining(table: seq<OrganizationRecord>, term: string): (r: seq<OrganizationRecord>)
    ensures forall x :: multiset(r)[x] == if NameMatches(x, term) then multiset(table)[x] else 0
  {
    FilterSpec(table, (x: OrganizationRecord) => NameMatches(x, term));
    Filter(table, (x: OrganizationRecord) => NameMatches(x, term))
  }

  /** A literal prefix of a pattern must match a prefix of the string. */
  lemma {:induction false} LikeLiteralPrefix(s: string, q: string, p: string)
    requires HasNoWildcards(q)
    ensures Like(s, q + p) <==> |q| <= |s| && s[..|q|] == q && Like(s[|q|..], p)
    decreases |q|
  {
    if q == [] {
      assert q + p == p && s[..0] == [] && s[0..] == s;
    } else {
      assert (q + p)[0] == q[0];
      assert (q + p)[1..] == q[1..] + p;
      if s != [] {
        assert HasNoWildcards(q[1..]);
        LikeLiteralPrefix(s[1..], q[1..], p);
        if |q| <= |s| {
          assert s[..|q|] == [s[0]] + s[1..][..|q| - 1];
          assert q == [q[0]] + q[1..];
          assert s[1..][|q| - 1..] == s[|q|..];
        }
      }
    }
  }

  /** A pattern ending in `%` accepts every string. */
  lemma {:induction false} LikePercentAcceptsAll(s: string)
    ensures Like(s, "%")
    decreases |s|
  {
    if s != [] {
      LikePercentAcceptsAll(s[1..]);
    }
  }

  /** A leading `%` lets the rest of the pattern match any suffix. */
  lemma {:induction false} LikeLeadingPercent(s: string, p: string)
    ensures Like(s, ['%'] + p) <==> exists k | 0 <= k <= |s| :: Like(s[k..], p)
    decreases |s|
  {
    assert (['%'] + p)[1..] == p;
    if s == [] {
      assert s[0..] == s;
    } else {
      LikeLeadingPercent(s[1..], p);
      assert s[0..] == s;
      forall k | 1 <= k <= |s| ensures s[k..] == s[1..][k - 1..] { }
      if exists k | 0 <= k <= |s| :: Like(s[k..], p) {
        var k :| 0 <= k <= |s| && Like(s[k..], p);
        if k > 0 {
          assert Like(s[1..][k - 1..], p);
        }
      }
    }
  }

  /** For a term without wildcards the search is a substring test. */
  lemma LikeIsSubstring(s: string, q: string)
    requires HasNoWildcards(q)
    ensures Like(s, "%" + q + "%") <==> Contains(s, q)
  {
    assert "%" + q + "%" == ['%'] + (q + "%");
    LikeLeadingPercent(s, q + "%");
    forall k | 0 <= k <= |s|
      ensures Like(s[k..], q + "%") <==> OccursAt(s, q, k)
    {
      LikeLiteralPrefix(s[k..], q, "%");
      if |q| <= |s| - k {
        LikePercentAcceptsAll(s[k..][|q|..]);
        assert s[k..][..|q|] == s[k..k + |q|];
      }
    }
    if Contains(s, q) {
      var k :| 0 <= k <= |s| && OccursAt(s, q, k);
      assert Like(s[k..], q + "%");
    }
  }

  /** The search is a case-insensitive substring test on the name as long
      as the term holds neither `%` nor `_`, which are not escaped. */
  lemma SearchIsCaseInsensitiveSubstring(table: seq<OrganizationRecord>, term: string)
    requires HasNoWildcards(term)
    ensures forall x :: x in FindByNameContaining(table, term) <==>
      x in table && Contains(Lower(x.name), Lower(term))
  {
    LowerConcat("%" + term, "%");
    LowerConcat("%", term);
    assert Lower("%" + term + "%") == "%" + Lower(term) + "%";
    assert HasNoWildcards(Lower(term));
    forall x ensures NameMatches(x, term) <==> Contains(Lower(x.name), Lower(term)) {
      LikeIsSubstring(Lower(x.name), Lower(term));
    }
  }

  /** Searching "acm" finds an organization named "Acme Corp". */
  lemma SearchFindsAcmeCorp(r: OrganizationRecord)
    requires r.name == "Acme Corp"
    ensures r in FindByNameContaining([r], "acm")
  {
    SearchIsCaseInsensitiveSubstring([r], "acm");
    assert Lower("acm") == "acm";
    assert Lower(r.name)[0..3] == "acm";
    assert OccursAt(Lower(r.name), Lower("acm"), 0);
  }

  /** An unescaped `_` in the term matches any character. */
  lemma UnderscoreMatchesAnyCharacter()
    ensures Like("abc", "%a_c%")
  {
  }

  // ---------------------------------------------------------------------
  // Exact lookups

  /** `findOne({ email })`. */
  function FindByEmail(table: seq<OrganizationRecord>, email: string): (r: Option<OrganizationRecord>)
    ensures r.None? <==> forall x | x in table :: x.email != Some(email)
    ensures r.Some? ==> r.value in table && r.value.email == Some(email)
  {
    FindFirst(table, (x: OrganizationRecord) => x.email == Some(email))
  }

  /** `findOne({ license })`. */
  function FindByLicense(table: seq<OrganizationRecord>, license: string): (r: Option<OrganizationRecord>)
    ensures r.None? <==> forall x | x in table :: x.license != Some(license)
    ensures r.Some? ==> r.value in table && r.value.license == Some(license)
  {
    FindFirst(table, (x: OrganizationRecord) => x.license == Some(license))
  }

  /** `count({ name }) > 0`: an exact, case-sensitive match. */
  function ExistsByName(table: seq<OrganizationRecord>, name: string): (b: bool)
    ensures b <==> exists x | x in table :: x.name == name
  {
    FilterSpec(table, (x: OrganizationRecord) => x.name == name);
    var matches := Filter(table, (x: OrganizationRecord) => x.name == name);
    assert matches != [] ==> matches[0] in matches;
    |matches| > 0
  }

  /** `count({ email }) > 0`. */
  function ExistsByEmail(table: seq<OrganizationRecord>, email: string): (b: bool)
    ensures b <==> exists x | x in table :: x.email == Some(email)
  {
    FilterSpec(table, (x: OrganizationRecord) => x.email == Some(email));
    var matches := Filter(table, (x: OrganizationRecord) => x.email == Some(email));
    assert matches != [] ==> matches[0] in matches;
    |matches| > 0
  }

  // ---------------------------------------------------------------------
  // Statistics and ranges

  /** `total` counts all rows, `active` the active ones, and `inactive` is
      their difference, which is exactly the number of inactive rows. */
  function GetStats(table: seq<OrganizationRecord>): (s: Stats)
    ensures s.total == |table| && s.active == |FindActive(table)| && s.inactive == |FindInactive(table)|
    ensures s.active + s.inactive == s.total
    ensures 0 <= s.active <= s.total && 0 <= s.inactive
  {
    var total := |table|;
    var active := |Filter(table, (x: OrganizationRecord) => x.active)|;
    ActiveInactivePartition(table);
    Stats(total, active, total - active)
  }

  /** `find({ createdAt: { $gte: start, $lte: end } })`. */
  function FindCreatedBetween(table: seq<OrganizationRecord>, start: int, end: int): (r: seq<OrganizationRecord>)
    ensures forall x :: multiset(r)[x] == if start <= x.createdAt <= end then multiset(table)[x] else 0
    ensures start > end ==> r == []
  {
    FilterSpec(table, (x: OrganizationRecord) => start <= x.createdAt <= end);
    var r := Filter(table, (x: OrganizationRecord) => start <= x.createdAt <= end);
    assert r != [] ==> r[0] in r;
    r
  }
}
