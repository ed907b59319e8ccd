/** The CI gate over check runs and commit statuses of one exact commit. */
module CheckGate {

  /** One check run (`value` is its conclusion, or "pending" until it has completed) or one
      commit status. Ids order the records of one source in time. */
  datatype Record = Record(id: int, name: string, value: string)

  datatype Verdict = APPROVE | REQUEST_CHANGES | WAITING_CI

  const FAILING := {"failure", "error", "cancelled", "timed_out", "action_required", "stale", "startup_failure"}
  const PROTECTED := {"test", "atdd scope", "semgrep/ci"}

  /** Protected contexts plus whatever the policy adds. */
  function RequiredNames(policy: set<string>): (r: set<string>)
    ensures PROTECTED <= r && policy <= r && r != {}
  {
    assert "test" in policy + PROTECTED;
    policy + PROTECTED
  }

  predicate DistinctIds(rs: seq<Record>) {
    forall i, j | 0 <= i < j < |rs| :: rs[i].id != rs[j].id
  }

  /** `r` is the newest record of its name. */
  ghost predicate Newest(rs: seq<Record>, r: Record) {
    r in rs && forall o | o in rs && o.name == r.name :: o.id <= r.id
  }

  /** Filling a dictionary in order: a later record replaces an earlier one. */
  function Filled(rs: seq<Record>): map<string, string> {
    if rs == [] then map[] else Filled(rs[..|rs| - 1])[rs[|rs| - 1].name := rs[|rs| - 1].value]
  }

  predicate SortedById(rs: seq<Record>) {
    forall i, j | 0 <= i < j < |rs| :: rs[i].id <= rs[j].id
  }

  /** Stable insertion by id, the order `sorted` gives. */
  function Insert(rs: seq<Record>, r: Record): seq<Record> {
    if rs == [] || rs[|rs| - 1].id <= r.id then rs + [r]
    else Insert(rs[..|rs| - 1], r) + [rs[|rs| - 1]]
  }

  function Sorted(rs: seq<Record>): seq<Record> {
    if rs == [] then [] else Insert(Sorted(rs[..|rs| - 1]), rs[|rs| - 1])
  }

  predicate AllUpTo(rs: seq<Record>, id: int) {
    forall o | o in rs :: o.id <= id
  }

  lemma {:induction false} InsertMembers(rs: seq<Record>, r: Record)
    ensures forall o :: o in Insert(rs, r) <==> o in rs || o == r
  {
    if rs != [] {
      InsertMembers(rs[..|rs| - 1], r);
    }
  }

  lemma SortedSnoc(rs: seq<Record>, r: Record)
    ensures SortedById(rs + [r]) <==> SortedById(rs) && AllUpTo(rs, r.id)
  {
    var all := rs + [r];
    assert forall i | 0 <= i < |rs| :: all[i] == rs[i] && rs[i] in rs;
    assert all[|rs|] == r;
    if SortedById(all) {
      forall o | o in rs ensures o.id <= r.id {
        var i :| 0 <= i < |rs| && rs[i] == o;
        assert all[i].id <= all[|rs|].id;
      }
    }
  }

  lemma {:induction false} InsertKeepsSorted(rs: seq<Record>, r: Record)
    requires SortedById(rs)
    ensures SortedById(Insert(rs, r))
  {
    if rs != [] {
      hide SortedById;
      var prefix, last := rs[..|rs| - 1], rs[|rs| - 1];
      assert rs == prefix + [last];
      SortedSnoc(prefix, last);
      if last.id <= r.id {
        SortedSnoc(rs, r);
      } else {
        InsertKeepsSorted(prefix, r);
        InsertMembers(prefix, r);
        SortedSnoc(Insert(prefix, r), last);
      }
    }
  }

  lemma {:induction false} SortedIsSorted(rs: seq<Record>)
    ensures SortedById(Sorted(rs)) && forall o :: o in Sorted(rs) <==> o in rs
  {
    if rs != [] {
      hide SortedById, Insert;
      SortedIsSorted(rs[..|rs| - 1]);
      InsertKeepsSorted(Sorted(rs[..|rs| - 1]), rs[|rs| - 1]);
      InsertMembers(Sorted(rs[..|rs| - 1]), rs[|rs| - 1]);
    }
  }

  /** The newest value per name. */
  function Latest(rs: seq<Record>): map<string, string> {
    Filled(Sorted(rs))
  }

  lemma {:induction false} FilledHoldsNewest(rs: seq<Record>, name: string)
    requires SortedById(rs)
    ensures name in Filled(rs) <==> exists r :: r in rs && r.name == name
    ensures name in Filled(rs) ==> exists r :: Newest(rs, r) && r.name == name && Filled(rs)[name] == r.value
  {
    if rs != [] {
      var n := |rs| - 1;
      var prefix, last := rs[..n], rs[n];
      assert rs == prefix + [last];
      FilledHoldsNewest(prefix, name);
      if last.name == name {
        assert Newest(rs, last) by {
          forall o | o in rs ensures o.id <= last.id { }
        }
      } else if name in Filled(prefix) {
        var r :| Newest(prefix, r) && r.name == name && Filled(prefix)[name] == r.value;
        assert Newest(rs, r);
      }
    }
  }

  /** With distinct ids the dictionary of a source is exactly its newest value per name,
      in whatever order the records arrive. */
  lemma LatestIsNewest(rs: seq<Record>, name: string, value: string)
    requires DistinctIds(rs)
    ensures name in Latest(rs) && Latest(rs)[name] == value
       <==> exists r :: Newest(rs, r) && r.name == name && r.value == value
  {
    SortedIsSorted(rs);
    var sorted := Sorted(rs);
    FilledHoldsNewest(sorted, name);
    hide Sorted, Filled, Insert;
    forall r ensures Newest(rs, r) <==> Newest(sorted, r) { }
    if r :| Newest(rs, r) && r.name == name && r.value == value {
      var q :| Newest(sorted, q) && q.name == name && Filled(sorted)[name] == q.value;
      assert q.id == r.id;
      var i :| 0 <= i < |rs| && rs[i] == q;
      var j :| 0 <= j < |rs| && rs[j] == r;
    }
  }

  /** The values the gate looks at for one required name: its newest in each source, or
      "pending" when neither source knows the name. */
  function ValuesOf(latest: map<string, string>, combined: map<string, string>, name: string): seq<string> {
    var fromChecks := if name in latest then [latest[name]] else [];
    var fromStatuses := if name in combined then [combined[name]] else [];
    if name !in latest && name !in combined then ["pending"] else fromChecks + fromStatuses
  }

  function ValuesOfAll(latest: map<string, string>, combined: map<string, string>, required: seq<string>): seq<string> {
    if required == [] then []
    else
      ValuesOfAll(latest, combined, required[..|required| - 1])
        + ValuesOf(latest, combined, required[|required| - 1])
  }

  /** The newest record of a name in either source has this value. */
  ghost predicate NewestValue(checks: seq<Record>, statuses: seq<Record>, name: string, value: string) {
    || (exists r :: Newest(checks, r) && r.name == name && r.value == value)
    || (exists r :: Newest(statuses, r) && r.name == name && r.value == value)
  }

  predicate HasRecord(checks: seq<Record>, statuses: seq<Record>, name: string) {
    (exists r | r in checks :: r.name == name) || (exists r | r in statuses :: r.name == name)
  }

  method Dictionary(rs: seq<Record>) returns (d: map<string, string>)
    ensures d == Latest(rs)
  {
    var sorted := Sorted(rs);
    d := map[];
    for i := 0 to |sorted|
      invariant d == Filled(sorted[..i])
    {
      assert sorted[..i + 1][..i] == sorted[..i];
      d := d[sorted[i].name := sorted[i].value];
    }
    assert sorted[..|sorted|] == sorted;
  }

  ghost predicate Approves(checks: seq<Record>, statuses: seq<Record>, required: seq<string>) {
    required != []
    && forall name | name in required ::
         HasRecord(checks, statuses, name)
         && forall v | NewestValue(checks, statuses, name, v) :: v == "success"
  }

  ghost predicate RequestsChanges(checks: seq<Record>, statuses: seq<Record>, required: seq<string>) {
    exists name, v :: name in required && v in FAILING && NewestValue(checks, statuses, name, v)
  }

  /** What one required name contributes, said without dictionaries. */
  lemma ValuesOfMeans(checks: seq<Record>, statuses: seq<Record>, name: string, value: string)
    requires DistinctIds(checks) && DistinctIds(statuses)
    ensures value in ValuesOf(Latest(checks), Latest(statuses), name) <==>
      NewestValue(checks, statuses, name, value) || (!HasRecord(checks, statuses, name) && value == "pending")
  {
    LatestIsNewest(checks, name, value);
    LatestIsNewest(statuses, name, value);
    KnownNames(checks, name);
    KnownNames(statuses, name);
    hide Latest, Newest, DistinctIds;
  }

  lemma KnownNames(rs: seq<Record>, name: string)
    ensures name in Latest(rs) <==> exists r | r in rs :: r.name == name
  {
    SortedIsSorted(rs);
    FilledHoldsNewest(Sorted(rs), name);
    hide Sorted, Filled;
  }

  lemma {:induction false} ValuesOfAllMembers(latest: map<string, string>, combined: map<string, string>,
                                              required: seq<string>, value: string)
    ensures value in ValuesOfAll(latest, combined, required) <==>
      exists name :: name in required && value in ValuesOf(latest, combined, name)
  {
    hide ValuesOf;
    if required != [] {
      var n := |required| - 1;
      assert required == required[..n] + [required[n]];
      ValuesOfAllMembers(latest, combined, required[..n], value);
    }
  }

  function GateOn(values: seq<string>): Verdict {
    if exists v | v in values :: v in FAILING then REQUEST_CHANGES
    else if values != [] && forall v | v in values :: v == "success" then APPROVE
    else WAITING_CI
  }

  /** The gate: two dictionaries, then one pass over the required names. */
  method Gate(checks: seq<Record>, statuses: seq<Record>, required: seq<string>) returns (verdict: Verdict)
    requires DistinctIds(checks) && DistinctIds(statuses)
    ensures verdict.APPROVE? <==> Approves(checks, statuses, required)
    ensures verdict.REQUEST_CHANGES? <==> RequestsChanges(checks, statuses, required)
  {
    hide *;
    var latest := Dictionary(checks);
    var combined := Dictionary(statuses);
    var values := Collect(latest, combined, required);
    verdict := GateOn(values);
    GateMeans(checks, statuses, required);
  }

  method Collect(latest: map<string, string>, combined: map<string, string>, required: seq<string>)
    returns (values: seq<string>)
    ensures values == ValuesOfAll(latest, combined, required)
  {
    hide ValuesOf;
    values := [];
    for i := 0 to |required|
      invariant values == ValuesOfAll(latest, combined, required[..i])
    {
      assert required[..i + 1][..i] == required[..i] && required[..i + 1][i] == required[i];
      values := values + ValuesOf(latest, combined, required[i]);
    }
    assert required[..|required|] == required;
  }

  lemma {:induction false} ValuesExist(latest: map<string, string>, combined: map<string, string>,
                                          required: seq<string>)
    ensures ValuesOfAll(latest, combined, required) != [] <==> required != []
  {
    if required != [] {
      assert ValuesOf(latest, combined, required[|required| - 1]) != [];
    }
  }

  /** A value is among those the gate looks at exactly when some required name contributes it. */
  lemma ValueIsContributed(checks: seq<Record>, statuses: seq<Record>, required: seq<string>, v: string)
    requires DistinctIds(checks) && DistinctIds(statuses)
    ensures v in ValuesOfAll(Latest(checks), Latest(statuses), required) <==>
      exists name :: name in required
        && (NewestValue(checks, statuses, name, v) || (!HasRecord(checks, statuses, name) && v == "pending"))
  {
    hide Latest, DistinctIds, NewestValue, HasRecord, ValuesOf, ValuesOfAll;
    ValuesOfAllMembers(Latest(checks), Latest(statuses), required, v);
    forall name { ValuesOfMeans(checks, statuses, name, v); }
  }

  lemma GateMeans(checks: seq<Record>, statuses: seq<Record>, required: seq<string>)
    requires DistinctIds(checks) && DistinctIds(statuses)
    ensures var verdict := GateOn(ValuesOfAll(Latest(checks), Latest(statuses), required));
      && (verdict.APPROVE? <==> Approves(checks, statuses, required))
      && (verdict.REQUEST_CHANGES? <==> RequestsChanges(checks, statuses, required))
  {
    hide Latest, DistinctIds, NewestValue, HasRecord, ValuesOf, ValuesOfAll;
    var values := ValuesOfAll(Latest(checks), Latest(statuses), required);
    ValuesExist(Latest(checks), Latest(statuses), required);
    forall v { ValueIsContributed(checks, statuses, required, v); }
    assert "pending" !in FAILING && "success" !in FAILING;
    forall name, v | name in required && NewestValue(checks, statuses, name, v) ensures v in values {
      assert v in values <==> v in ValuesOfAll(Latest(checks), Latest(statuses), required);
    }
    if values != [] && forall v | v in values :: v == "success" {
      forall name | name in required ensures HasRecord(checks, statuses, name) {
        assert "pending" !in values;
      }
    }
  }

  ghost predicate SameMembers(a: seq<Record>, b: seq<Record>) {
    forall r :: r in a <==> r in b
  }

  /** The order in which the records arrive does not matter. */
  lemma OrderDoesNotMatter(checks: seq<Record>, statuses: seq<Record>, c: seq<Record>, s: seq<Record>,
                           required: seq<string>)
    requires SameMembers(checks, c) && SameMembers(statuses, s)
    ensures Approves(checks, statuses, required) <==> Approves(c, s, required)
    ensures RequestsChanges(checks, statuses, required) <==> RequestsChanges(c, s, required)
  {
    forall r ensures (Newest(checks, r) <==> Newest(c, r)) && (Newest(statuses, r) <==> Newest(s, r)) { }
    hide Newest;
    forall name, v ensures NewestValue(checks, statuses, name, v) <==> NewestValue(c, s, name, v) { }
    forall name ensures HasRecord(checks, statuses, name) <==> HasRecord(c, s, name) { }
    hide NewestValue, HasRecord;
  }

  /** Requiring more never turns another verdict into an approval, unless nothing was
      required before; and it keeps every request for changes. */
  lemma RequiringMoreIsStricter(checks: seq<Record>, statuses: seq<Record>, required: seq<string>, more: seq<string>)
    requires required != [] && forall name | name in required :: name in more
    ensures Approves(checks, statuses, more) ==> Approves(checks, statuses, required)
    ensures RequestsChanges(checks, statuses, required) ==> RequestsChanges(checks, statuses, more)
  {
    hide NewestValue, HasRecord;
  }

  /** Whatever the policy says, an approval needs a record of every protected context, and
      only successes among their newest records. */
  lemma ProtectedAlwaysDecide(checks: seq<Record>, statuses: seq<Record>, policy: set<string>,
                              required: seq<string>, name: string)
    requires forall n :: n in required <==> n in RequiredNames(policy)
    requires name in PROTECTED && Approves(checks, statuses, required)
    ensures HasRecord(checks, statuses, name)
    ensures forall v | NewestValue(checks, statuses, name, v) :: v == "success"
  {
    assert name in required;
    hide NewestValue, HasRecord;
  }
}
