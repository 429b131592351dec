/**
  The benchmark report's evidence, from cmd/benchharness/main.go and internal/bench/study.go: raw files are
  loaded one by one into per-arm maps, and the arms are compared only if their traces agree.
 */
module Evidence {
  import opened Common

  datatype Row = Row(
    study: string, arm: string, checksum: string, tolerance: real, tenant: string, priority: Option<int>, sentAt: int)

  /** A raw file: `None` when it cannot be opened or parsed. */
  type File = Option<seq<Row>>

  /**
    What the report takes as given: the registered studies and their arms, which arms are isolated baselines,
    the comparison group of an arm, the hash of a send-timestamp sequence, the rendering of a treatment.
   */
  datatype Registry = Registry(
    studies: map<string, seq<string>>,
    unlabelled: string,
    isBaseline: string -> bool,
    groupOf: string -> string,
    hash: seq<int> -> int,
    render: map<string, int> -> string)

  function CanonicalStudy(reg: Registry, id: string): string {
    if id == "" then reg.unlabelled else id
  }

  function LookupStudy(reg: Registry, id: string): Option<seq<string>> {
    var key := CanonicalStudy(reg, id);
    if key in reg.studies then Some(reg.studies[key]) else None
  }

  // ------------------------------------------------------------- one raw file

  predicate OneArm(rows: seq<Row>) {
    forall r <- rows, q <- rows :: r.arm == q.arm && r.checksum == q.checksum
  }

  predicate OneStudy(reg: Registry, rows: seq<Row>) {
    forall r <- rows, q <- rows :: CanonicalStudy(reg, r.study) == CanonicalStudy(reg, q.study)
  }

  method SingleArm(rows: seq<Row>) returns (r: Option<string>)
    requires rows != []
    ensures r.Some? <==> OneArm(rows)
    ensures r.Some? ==> forall q <- rows :: q.arm == r.value
  {
    for i := 0 to |rows|
      invariant forall k :: 0 <= k < i ==> rows[k].arm == rows[0].arm && rows[k].checksum == rows[0].checksum
    {
      if rows[i].arm != rows[0].arm || rows[i].checksum != rows[0].checksum {
        assert rows[i] in rows && rows[0] in rows;
        return None;
      }
    }
    r := Some(rows[0].arm);
  }

  method SingleStudy(reg: Registry, rows: seq<Row>) returns (r: Option<string>)
    requires rows != []
    ensures r.Some? <==> OneStudy(reg, rows)
    ensures r.Some? ==> forall q <- rows :: CanonicalStudy(reg, q.study) == r.value
  {
    var canonical := CanonicalStudy(reg, rows[0].study);
    for i := 0 to |rows|
      invariant forall k :: 0 <= k < i ==> CanonicalStudy(reg, rows[k].study) == canonical
    {
      if CanonicalStudy(reg, rows[i].study) != canonical {
        assert rows[i] in rows && rows[0] in rows;
        return None;
      }
    }
    r := Some(canonical);
  }

  /** The priority each tenant's requests last carried. */
  function Priorities(rows: seq<Row>): map<string, int> {
    if rows == [] then map[]
    else
      var rest, last := Priorities(rows[..|rows| - 1]), rows[|rows| - 1];
      if last.priority.Some? then rest[last.tenant := last.priority.value] else rest
  }

  /** A tenant has a priority exactly when some request of it carried one. */
  lemma {:induction false} PrioritiesExactly(rows: seq<Row>, tenant: string)
    ensures tenant in Priorities(rows) <==> exists r <- rows :: r.tenant == tenant && r.priority.Some?
  {
    if rows != [] {
      var rest, last := rows[..|rows| - 1], rows[|rows| - 1];
      PrioritiesExactly(rest, tenant);
      assert rows == rest + [last] && last in rows;
    }
  }

  /** And it is the last one that was carried. */
  lemma {:induction false} PriorityIsTheLast(rows: seq<Row>, i: nat)
    requires i < |rows| && rows[i].priority.Some?
    requires forall k :: i < k < |rows| && rows[k].tenant == rows[i].tenant ==> rows[k].priority.None?
    ensures rows[i].tenant in Priorities(rows) && Priorities(rows)[rows[i].tenant] == rows[i].priority.value
  {
    if i < |rows| - 1 {
      PriorityIsTheLast(rows[..|rows| - 1], i);
    }
  }

  method TreatmentOf(reg: Registry, rows: seq<Row>) returns (t: string)
    ensures t == reg.render(Priorities(rows))
  {
    var seen: map<string, int> := map[];
    for i := 0 to |rows|
      invariant seen == Priorities(rows[..i])
    {
      assert rows[..i + 1][..i] == rows[..i];
      if rows[i].priority.Some? {
        seen := seen[rows[i].tenant := rows[i].priority.value];
      }
    }
    assert rows[..|rows|] == rows;
    t := reg.render(seen);
  }

  function Sends(rows: seq<Row>): seq<int> {
    seq(|rows|, i requires 0 <= i < |rows| => rows[i].sentAt)
  }

  /** The send times of a file are those of its rows, in order. */
  lemma SendsAre(rows: seq<Row>, i: nat)
    requires i < |rows|
    ensures |Sends(rows)| == |rows| && Sends(rows)[i] == rows[i].sentAt
  {
  }

  // ------------------------------------------------------------- what is loaded

  /** What the report keeps of one file. */
  datatype Facts = Facts(
    study: string, arm: string, checksum: string, tolerance: real, treatment: string, replay: int, rows: nat)

  function FactsOf(reg: Registry, f: seq<Row>): Facts
    requires f != []
  {
    Facts(CanonicalStudy(reg, f[0].study), f[0].arm, f[0].checksum, f[0].tolerance,
          reg.render(Priorities(f)), reg.hash(Sends(f)), |f|)
  }

  /** One study; and two files of one arm are separate replays of one trace, tolerance and treatment. */
  predicate Repeats(f: Facts, g: Facts) {
    && f.study == g.study
    && (f.arm == g.arm ==>
          f.replay != g.replay && f.checksum == g.checksum && f.tolerance == g.tolerance && f.treatment == g.treatment)
  }

  /** A file on its own: one arm, one trace, and an arm that its registered study admits. */
  predicate Placed(reg: Registry, f: seq<Row>) {
    && f != [] && OneArm(f) && OneStudy(reg, f)
    && Admitted(reg, FactsOf(reg, f))
  }

  predicate Admitted(reg: Registry, f: Facts) {
    var arms := LookupStudy(reg, f.study);
    arms.Some? && f.arm in arms.value
  }

  /** The facts of the files that are kept: a file without rows is skipped. */
  function Kept(reg: Registry, files: seq<File>): seq<Facts> {
    if files == [] then []
    else
      var rest, last := Kept(reg, files[..|files| - 1]), files[|files| - 1];
      if last.Some? && last.value != [] then rest + [FactsOf(reg, last.value)] else rest
  }

  predicate Joins(loaded: seq<Facts>, f: Facts) {
    forall g <- loaded :: Repeats(g, f)
  }

  /** What loading demands of the files: each readable and placed, each joining those before it. */
  predicate Consistent(reg: Registry, files: seq<File>) {
    files == [] ||
    var rest, last := files[..|files| - 1], files[|files| - 1];
    && Consistent(reg, rest) && last.Some?
    && (last.value != [] ==> Placed(reg, last.value) && Joins(Kept(reg, rest), FactsOf(reg, last.value)))
  }

  // ---------------------------------------------------------- the per-arm maps

  /** The maps a load has filled. */
  datatype Index = Index(
    study: Option<string>,
    replays: set<(string, int)>,
    checksum: map<string, string>,
    tolerance: map<string, real>,
    treatment: map<string, string>,
    repRows: map<string, seq<nat>>)

  function Extend(x: Index, f: Facts): Index {
    Index(Some(f.study),
          x.replays + {(f.arm, f.replay)},
          x.checksum[f.arm := f.checksum],
          x.tolerance[f.arm := f.tolerance],
          x.treatment[f.arm := f.treatment],
          x.repRows[f.arm := (if f.arm in x.repRows then x.repRows[f.arm] else []) + [f.rows]])
  }

  /** The refusals that compare a file with those before it, through the maps alone. */
  predicate Fits(x: Index, f: Facts) {
    && (x.study.Some? ==> f.study == x.study.value)
    && (f.arm, f.replay) !in x.replays
    && (f.arm in x.checksum ==> x.checksum[f.arm] == f.checksum)
    && (f.arm in x.tolerance ==> x.tolerance[f.arm] == f.tolerance)
    && (f.arm in x.treatment ==> x.treatment[f.arm] == f.treatment)
  }

  function IndexOf(loaded: seq<Facts>): Index {
    if loaded == [] then Index(None, {}, map[], map[], map[], map[])
    else Extend(IndexOf(loaded[..|loaded| - 1]), loaded[|loaded| - 1])
  }

  /** Each file joined those before it. */
  predicate Chained(loaded: seq<Facts>) {
    loaded == [] || (Chained(loaded[..|loaded| - 1]) && Joins(loaded[..|loaded| - 1], loaded[|loaded| - 1]))
  }

  lemma LoadedOneMore(loaded: seq<Facts>, f: Facts)
    ensures IndexOf(loaded + [f]) == Extend(IndexOf(loaded), f)
    ensures Chained(loaded + [f]) <==> Chained(loaded) && Joins(loaded, f)
  {
    assert (loaded + [f])[..|loaded|] == loaded;
  }

  /** What the maps say of one file that was loaded. */
  predicate Says(x: Index, f: Facts) {
    && x.study == Some(f.study) && (f.arm, f.replay) in x.replays
    && f.arm in x.checksum && x.checksum[f.arm] == f.checksum
    && f.arm in x.tolerance && x.tolerance[f.arm] == f.tolerance
    && f.arm in x.treatment && x.treatment[f.arm] == f.treatment
    && f.arm in x.repRows && f.rows in x.repRows[f.arm]
  }

  lemma {:induction false} IndexSays(loaded: seq<Facts>, f: Facts)
    requires Chained(loaded) && f in loaded
    ensures Says(IndexOf(loaded), f)
  {
    var rest, last := loaded[..|loaded| - 1], loaded[|loaded| - 1];
    assert loaded == rest + [last];
    if f in rest {
      IndexSays(rest, f);
      assert Repeats(f, last);
    } else {
      assert f == last;
    }
  }

  /** Nothing is in the maps that no file put there. */
  lemma {:induction false} IndexIsGrounded(loaded: seq<Facts>, a: string)
    ensures var x := IndexOf(loaded);
            a in x.checksum || a in x.tolerance || a in x.treatment || a in x.repRows ==>
              exists f <- loaded :: f.arm == a
  {
    if loaded != [] {
      var rest, last := loaded[..|loaded| - 1], loaded[|loaded| - 1];
      IndexIsGrounded(rest, a);
      assert last in loaded && forall f <- rest :: f in loaded;
    }
  }

  lemma {:induction false} ReplayIsGrounded(loaded: seq<Facts>, a: string, h: int)
    requires (a, h) in IndexOf(loaded).replays
    ensures exists f <- loaded :: f.arm == a && f.replay == h
  {
    var rest, last := loaded[..|loaded| - 1], loaded[|loaded| - 1];
    assert last in loaded;
    if (a, h) in IndexOf(rest).replays {
      ReplayIsGrounded(rest, a, h);
      assert forall f <- rest :: f in loaded;
    }
  }

  lemma {:induction false} RowsAreGrounded(loaded: seq<Facts>, a: string, n: nat)
    requires a in IndexOf(loaded).repRows && n in IndexOf(loaded).repRows[a]
    ensures exists f <- loaded :: f.arm == a && f.rows == n
  {
    var rest, last := loaded[..|loaded| - 1], loaded[|loaded| - 1];
    assert last in loaded;
    if a in IndexOf(rest).repRows && n in IndexOf(rest).repRows[a] {
      RowsAreGrounded(rest, a, n);
      assert forall f <- rest :: f in loaded;
    }
  }

  /** One recorded value per arm stands for all its files: what fits the maps joins every loaded file. */
  lemma FitsExactlyWhenJoins(loaded: seq<Facts>, f: Facts)
    requires Chained(loaded)
    ensures Fits(IndexOf(loaded), f) <==> Joins(loaded, f)
  {
    if Fits(IndexOf(loaded), f) {
      forall g | g in loaded ensures Repeats(g, f) {
        IndexSays(loaded, g);
      }
    }
    if Joins(loaded, f) {
      JoinsFits(loaded, f);
    }
  }

  lemma JoinsFits(loaded: seq<Facts>, f: Facts)
    requires Chained(loaded) && Joins(loaded, f)
    ensures Fits(IndexOf(loaded), f)
  {
    var x := IndexOf(loaded);
    if loaded != [] {
      IndexSays(loaded, loaded[0]);
      assert Repeats(loaded[0], f);
    }
    if (f.arm, f.replay) in x.replays {
      ReplayIsGrounded(loaded, f.arm, f.replay);
    }
    IndexIsGrounded(loaded, f.arm);
    if g :| g in loaded && g.arm == f.arm {
      IndexSays(loaded, g);
      assert Repeats(g, f);
    }
  }

  // -------------------------------------------------------- agreement by arm

  predicate SumsAgree(arms: seq<string>, checksum: map<string, string>, groupOf: string -> string) {
    && (forall a <- arms :: a in checksum ==> checksum[a] != "")
    && (forall a <- arms, b <- arms ::
          a in checksum && b in checksum && groupOf(a) == groupOf(b) ==> checksum[a] == checksum[b])
  }

  /** The first loop: each arm is compared with its group's first one, which stands for the whole group. */
  method CheckSums(arms: seq<string>, checksum: map<string, string>, groupOf: string -> string) returns (ok: bool)
    ensures ok <==> SumsAgree(arms, checksum, groupOf)
  {
    var want: map<string, string> := map[];
    for i := 0 to |arms|
      invariant forall k :: 0 <= k < i && arms[k] in checksum ==>
                  checksum[arms[k]] != "" && groupOf(arms[k]) in want && want[groupOf(arms[k])] == checksum[arms[k]]
      invariant forall g <- want ::
                  exists k :: 0 <= k < i && arms[k] in checksum && groupOf(arms[k]) == g && checksum[arms[k]] == want[g]
    {
      var arm := arms[i];
      assert arm in arms;
      if arm in checksum {
        var g := groupOf(arm);
        if checksum[arm] == "" {
          return false;
        }
        if g !in want {
          want := want[g := checksum[arm]];
        } else if checksum[arm] != want[g] {
          return false;
        }
      }
    }
    ok := true;
  }

  predicate AllAre(rows: seq<nat>, n: nat) {
    forall m <- rows :: m == n
  }

  predicate RowsAgree(arms: seq<string>, repRows: map<string, seq<nat>>, groupOf: string -> string) {
    forall a <- arms, b <- arms :: a in repRows && b in repRows && groupOf(a) == groupOf(b) ==>
      forall n <- repRows[b] :: AllAre(repRows[a], n)
  }

  lemma AllAreFirst(rows: seq<nat>)
    requires rows != []
    ensures forall n :: AllAre(rows, n) <==> rows[0] == n && AllAre(rows[1..], n)
  {
    assert rows[0] in rows;
    assert forall m :: m in rows <==> m == rows[0] || m in rows[1..];
  }

  /** The inner loop on any counts: a zero `want` means that the group has no count yet. */
  function Sentinel(want: nat, rows: seq<nat>): Option<nat>
    decreases rows
  {
    if rows == [] then Some(want)
    else if want == 0 then Sentinel(rows[0], rows[1..])
    else if rows[0] != want then None
    else Sentinel(want, rows[1..])
  }

  /** Without empty recordings the sentinel accepts exactly equal counts. */
  lemma {:induction false} SentinelDecides(want: nat, rows: seq<nat>)
    requires forall n <- rows :: n > 0
    ensures var n := if want == 0 && rows != [] then rows[0] else want;
            Sentinel(want, rows) == if AllAre(rows, n) then Some(n) else None
    decreases rows
  {
    if rows != [] {
      assert rows[0] in rows && forall n <- rows[1..] :: n in rows;
      AllAreFirst(rows);
      SentinelDecides(if want == 0 then rows[0] else want, rows[1..]);
    }
  }

  /** Zeros, then one count throughout. */
  predicate ZerosThenEqual(rows: seq<nat>) {
    rows == [] || AllAre(rows, rows[0]) || (rows[0] == 0 && ZerosThenEqual(rows[1..]))
  }

  /** On any counts it accepts exactly leading zeros before equal counts: empty recordings would slip through. */
  lemma {:induction false} SentinelAccepts(rows: seq<nat>)
    ensures Sentinel(0, rows).Some? <==> ZerosThenEqual(rows)
  {
    if rows != [] {
      AllAreFirst(rows);
      if rows[0] == 0 {
        SentinelAccepts(rows[1..]);
        AllZero(rows[1..]);
      } else {
        SentinelFixed(rows[0], rows[1..]);
      }
    }
  }

  lemma AllZero(rows: seq<nat>)
    ensures AllAre(rows, 0) ==> ZerosThenEqual(rows)
  {
    assert rows != [] ==> rows[0] in rows;
  }

  lemma {:induction false} SentinelFixed(want: nat, rows: seq<nat>)
    requires want > 0
    ensures Sentinel(want, rows).Some? <==> AllAre(rows, want)
  {
    if rows != [] {
      AllAreFirst(rows);
      SentinelFixed(want, rows[1..]);
    }
  }

  /** The inner loop as it runs. */
  method CheckArmRows(rows: seq<nat>, want: nat) returns (ok: bool, want': nat)
    ensures ok <==> Sentinel(want, rows).Some?
    ensures ok ==> Sentinel(want, rows) == Some(want')
  {
    want' := want;
    for i := 0 to |rows|
      invariant Sentinel(want, rows) == Sentinel(want', rows[i..])
    {
      assert rows[i..][1..] == rows[i + 1..];
      if want' == 0 {
        want' := rows[i];
      } else if rows[i] != want' {
        return false, want';
      }
    }
    ok := true;
  }

  ghost predicate RowsSoFar(arms: seq<string>, repRows: map<string, seq<nat>>, groupOf: string -> string,
                            want: map<string, nat>)
  {
    && (forall a <- arms :: a in repRows && repRows[a] != [] ==>
          groupOf(a) in want && AllAre(repRows[a], want[groupOf(a)]))
    && (forall g <- want :: want[g] > 0 ==>
          exists a <- arms :: a in repRows && groupOf(a) == g && want[g] in repRows[a])
  }

  function CountOf(want: map<string, nat>, g: string): nat {
    if g in want then want[g] else 0
  }

  /** A count that differs from its group's is a disagreement between two arms, or within one. */
  lemma Disagree(arms: seq<string>, repRows: map<string, seq<nat>>, groupOf: string -> string, want: map<string, nat>,
                 i: nat, n: nat)
    requires i < |arms| && arms[i] in repRows && repRows[arms[i]] != []
    requires RowsSoFar(arms[..i], repRows, groupOf, want)
    requires var w := CountOf(want, groupOf(arms[i]));
             n == (if w == 0 then repRows[arms[i]][0] else w) && !AllAre(repRows[arms[i]], n)
    ensures !RowsAgree(arms, repRows, groupOf)
  {
    var arm := arms[i];
    var w := CountOf(want, groupOf(arm));
    var a := arm;
    if w != 0 {
      a :| a in arms[..i] && a in repRows && groupOf(a) == groupOf(arm) && w in repRows[a];
    }
    assert arm in arms && a in arms && n in repRows[a];
  }

  /** The second loop, over every arm's repetitions. */
  method CheckRows(arms: seq<string>, repRows: map<string, seq<nat>>, groupOf: string -> string) returns (ok: bool)
    requires forall a <- repRows :: forall n <- repRows[a] :: n > 0
    ensures ok <==> RowsAgree(arms, repRows, groupOf)
  {
    var want: map<string, nat> := map[];
    for i := 0 to |arms|
      invariant RowsSoFar(arms[..i], repRows, groupOf, want)
    {
      var arm := arms[i];
      assert arms[..i + 1] == arms[..i] + [arm];
      if arm in repRows && repRows[arm] != [] {
        var g, n := groupOf(arm), 0;
        SentinelDecides(CountOf(want, g), repRows[arm]);
        ok, n := CheckArmRows(repRows[arm], CountOf(want, g));
        if !ok {
          Disagree(arms, repRows, groupOf, want, i, if CountOf(want, g) == 0 then repRows[arm][0] else want[g]);
          return;
        }
        RowsOneMore(arms[..i], repRows, groupOf, want, arm, n);
        want := want[g := n];
      }
    }
    assert arms[..|arms|] == arms;
    RowsAllSeen(arms, repRows, groupOf, want);
    ok := true;
  }

  lemma RowsOneMore(arms: seq<string>, repRows: map<string, seq<nat>>, groupOf: string -> string,
                    want: map<string, nat>, arm: string, n: nat)
    requires RowsSoFar(arms, repRows, groupOf, want) && arm in repRows && repRows[arm] != []
    requires n == (if CountOf(want, groupOf(arm)) == 0 then repRows[arm][0] else want[groupOf(arm)])
    requires AllAre(repRows[arm], n) && forall a <- repRows :: forall m <- repRows[a] :: m > 0
    ensures RowsSoFar(arms + [arm], repRows, groupOf, want[groupOf(arm) := n])
  {
    var want', all := want[groupOf(arm) := n], arms + [arm];
    forall a | a in all && a in repRows && repRows[a] != []
      ensures groupOf(a) in want' && AllAre(repRows[a], want'[groupOf(a)])
    {
      if a in arms {
        assert repRows[a][0] in repRows[a];
      }
    }
    forall g | g in want' && want'[g] > 0
      ensures exists a <- all :: a in repRows && groupOf(a) == g && want'[g] in repRows[a]
    {
      if g == groupOf(arm) {
        assert repRows[arm][0] in repRows[arm] && arm in all;
      } else {
        var a :| a in arms && a in repRows && groupOf(a) == g && want[g] in repRows[a];
        assert a in all;
      }
    }
  }

  lemma RowsAllSeen(arms: seq<string>, repRows: map<string, seq<nat>>, groupOf: string -> string,
                    want: map<string, nat>)
    requires RowsSoFar(arms, repRows, groupOf, want)
    ensures RowsAgree(arms, repRows, groupOf)
  {
    forall a, b, n | && a in arms && b in arms && a in repRows && b in repRows
                     && groupOf(a) == groupOf(b) && n in repRows[b]
      ensures AllAre(repRows[a], n)
    {
      assert n == want[groupOf(b)];
      assert repRows[a] != [] ==> AllAre(repRows[a], want[groupOf(a)]);
    }
  }

  /** The third loop: a baseline's repetitions are compared with its first. */
  method CheckBaseline(rows: seq<nat>) returns (ok: bool)
    ensures ok <==> forall n <- rows :: AllAre(rows, n)
  {
    for i := 0 to |rows|
      invariant forall k :: 0 <= k < i ==> rows[k] == rows[0]
    {
      if rows[i] != rows[0] {
        assert rows[i] in rows && rows[0] in rows;
        return false;
      }
    }
    ok := true;
  }

  method CheckBaselines(repRows: map<string, seq<nat>>, isBaseline: string -> bool) returns (ok: bool)
    ensures ok <==> forall a <- repRows :: isBaseline(a) ==> forall n <- repRows[a] :: AllAre(repRows[a], n)
  {
    var left := repRows.Keys;
    ok := true;
    while left != {}
      invariant left <= repRows.Keys && ok
      invariant forall a <- repRows.Keys - left :: isBaseline(a) ==> forall n <- repRows[a] :: AllAre(repRows[a], n)
      decreases |left|
    {
      var a :| a in left;
      if isBaseline(a) {
        ok := CheckBaseline(repRows[a]);
        if !ok {
          return;
        }
      }
      left := left - {a};
    }
  }

  class ArmEvidence {
    const reg: Registry
    var study: string
    var studySeen: bool
    var repRows: map<string, seq<nat>>
    var replays: set<(string, int)>
    var checksum: map<string, string>
    var tolerance: map<string, real>
    var treatment: map<string, string>
    ghost var loaded: seq<Facts>

    constructor (reg: Registry)
      ensures this.reg == reg && Valid() && loaded == []
    {
      this.reg := reg;
      study, studySeen, repRows, replays, loaded := "", false, map[], {}, [];
      checksum, tolerance, treatment := map[], map[], map[];
    }

    ghost predicate Valid()
      reads this
    {
      Chained(loaded) && View() == IndexOf(loaded) && forall f <- loaded :: Admitted(reg, f) && f.rows > 0
    }

    function View(): Index
      reads this
    {
      Index(if studySeen then Some(study) else None, replays, checksum, tolerance, treatment, repRows)
    }

    /** The refusals of one file; nothing is recorded by a refused file. */
    method Check(rows: seq<Row>) returns (ok: bool, f: Facts)
      requires Valid() && rows != []
      ensures f == FactsOf(reg, rows)
      ensures ok <==> Placed(reg, rows) && Joins(loaded, f)
    {
      var treat := TreatmentOf(reg, rows);
      f := Facts(CanonicalStudy(reg, rows[0].study), rows[0].arm, rows[0].checksum, rows[0].tolerance, treat,
                 reg.hash(Sends(rows)), |rows|);
      var s := SingleStudy(reg, rows);
      var a := SingleArm(rows);
      FitsExactlyWhenJoins(loaded, f);
      var arms := LookupStudy(reg, f.study);
      ok := s.Some? && a.Some? && arms.Some? && f.arm in arms.value && Fits(View(), f);
    }

    method Add(f: Facts)
      requires Valid() && Joins(loaded, f) && Admitted(reg, f) && f.rows > 0
      modifies this
      ensures Valid() && loaded == old(loaded) + [f]
    {
      Update(f);
      LoadedOneMore(loaded, f);
      loaded := loaded + [f];
    }

    method Update(f: Facts)
      modifies this
      ensures View() == Extend(old(View()), f) && loaded == old(loaded)
    {
      study, studySeen := f.study, true;
      replays := replays + {(f.arm, f.replay)};
      checksum := checksum[f.arm := f.checksum];
      tolerance := tolerance[f.arm := f.tolerance];
      treatment := treatment[f.arm := f.treatment];
      repRows := repRows[f.arm := (if f.arm in repRows then repRows[f.arm] else []) + [f.rows]];
    }

    /** One file: an empty one is skipped. */
    method LoadFile(file: File) returns (ok: bool)
      requires Valid()
      modifies this
      ensures Valid()
      ensures ok <==>
                && file.Some?
                && (file.value != [] ==> Placed(reg, file.value) && Joins(old(loaded), FactsOf(reg, file.value)))
      ensures loaded == if ok && file.value != [] then old(loaded) + [FactsOf(reg, file.value)] else old(loaded)
    {
      if file.None? {
        return false;
      }
      if file.value == [] {
        return true;
      }
      var f;
      ok, f := Check(file.value);
      if ok {
        Add(f);
      }
    }

    /** `loadArmEvidence`: accepted exactly when every file is readable, placed, and joins the earlier ones. */
    method Load(files: seq<File>) returns (ok: bool)
      requires Valid() && loaded == []
      modifies this
      ensures Valid() && (ok <==> Consistent(reg, files))
      ensures ok ==> loaded == Kept(reg, files)
    {
      for i := 0 to |files|
        invariant Valid() && Consistent(reg, files[..i]) && loaded == Kept(reg, files[..i])
      {
        OneFileMore(reg, files, i);
        ok := LoadFile(files[i]);
        if !ok {
          RefusedStays(reg, files, i + 1);
          return;
        }
      }
      assert files[..|files|] == files;
      ok := true;
    }

    /** `contendedArms`: the study's arms that replay the whole trace. */
    method ContendedArms() returns (arms: seq<string>)
      requires Valid()
      ensures Covers(reg, loaded, arms)
    {
      arms := [];
      var found := LookupStudy(reg, study);
      if found.None? {
        found := LookupStudy(reg, reg.unlabelled);
      }
      var all := if found.Some? then found.value else [];
      for i := 0 to |all|
        invariant forall k :: 0 <= k < i && !reg.isBaseline(all[k]) ==> all[k] in arms
        invariant forall a <- arms :: !reg.isBaseline(a)
      {
        if !reg.isBaseline(all[i]) {
          arms := arms + [all[i]];
        }
      }
      forall f | f in loaded && !reg.isBaseline(f.arm) ensures f.arm in arms {
        IndexSays(loaded, f);
        assert f.arm in all;
      }
    }

    /** `refuseIfTracesDisagree`: representative comparisons decide agreement between every two files. */
    method RefuseIfTracesDisagree() returns (ok: bool)
      requires Valid()
      ensures ok <==> Agreement(reg, loaded)
    {
      var arms := ContendedArms();
      SumsByFile(reg, loaded, arms);
      RowsByFile(reg, loaded, arms);
      BaselinesByFile(reg, loaded);
      forall a, n | a in repRows && n in repRows[a] ensures n > 0 {
        RowsAreGrounded(loaded, a, n);
      }
      ok := CheckSums(arms, checksum, reg.groupOf);
      if ok {
        ok := CheckRows(arms, repRows, reg.groupOf);
      }
      if ok {
        ok := CheckBaselines(repRows, reg.isBaseline);
      }
    }
  }

  // ---------------------------------------------------------- agreement by file

  /** What a comparison may rest on, said of the files themselves, pair by pair. */
  predicate Agreement(reg: Registry, loaded: seq<Facts>) {
    && (forall f <- loaded :: !reg.isBaseline(f.arm) ==> f.checksum != "")
    && (forall f <- loaded, g <- loaded :: Compared(reg, f, g) ==> f.checksum == g.checksum && f.rows == g.rows)
    && (forall f <- loaded, g <- loaded :: f.arm == g.arm && reg.isBaseline(f.arm) ==> f.rows == g.rows)
  }

  predicate Compared(reg: Registry, f: Facts, g: Facts) {
    !reg.isBaseline(f.arm) && !reg.isBaseline(g.arm) && reg.groupOf(f.arm) == reg.groupOf(g.arm)
  }

  /** The arms looked at cover every contended file, because loading refused arms outside the study. */
  predicate Covers(reg: Registry, loaded: seq<Facts>, arms: seq<string>) {
    && (forall f <- loaded :: !reg.isBaseline(f.arm) ==> f.arm in arms)
    && (forall a <- arms :: !reg.isBaseline(a))
  }

  lemma SumsByFile(reg: Registry, loaded: seq<Facts>, arms: seq<string>)
    requires Chained(loaded) && Covers(reg, loaded, arms)
    ensures SumsAgree(arms, IndexOf(loaded).checksum, reg.groupOf) <==>
              && (forall f <- loaded :: !reg.isBaseline(f.arm) ==> f.checksum != "")
              && (forall f <- loaded, g <- loaded :: Compared(reg, f, g) ==> f.checksum == g.checksum)
  {
    var checksum := IndexOf(loaded).checksum;
    forall f | f in loaded ensures f.arm in checksum && checksum[f.arm] == f.checksum {
      IndexSays(loaded, f);
    }
    forall a | a in checksum ensures exists f <- loaded :: f.arm == a {
      IndexIsGrounded(loaded, a);
    }
  }

  lemma RowsByFile(reg: Registry, loaded: seq<Facts>, arms: seq<string>)
    requires Chained(loaded) && Covers(reg, loaded, arms)
    ensures RowsAgree(arms, IndexOf(loaded).repRows, reg.groupOf) <==>
              forall f <- loaded, g <- loaded :: Compared(reg, f, g) ==> f.rows == g.rows
  {
    var repRows := IndexOf(loaded).repRows;
    if RowsAgree(arms, repRows, reg.groupOf) {
      forall f, g | f in loaded && g in loaded && Compared(reg, f, g) ensures f.rows == g.rows {
        IndexSays(loaded, f);
        IndexSays(loaded, g);
        assert AllAre(repRows[f.arm], g.rows);
      }
    } else {
      RowsDisagree(reg, loaded, arms);
    }
  }

  lemma RowsDisagree(reg: Registry, loaded: seq<Facts>, arms: seq<string>)
    requires (forall a <- arms :: !reg.isBaseline(a)) && !RowsAgree(arms, IndexOf(loaded).repRows, reg.groupOf)
    ensures exists f <- loaded, g <- loaded :: Compared(reg, f, g) && f.rows != g.rows
  {
    var repRows := IndexOf(loaded).repRows;
    var a, b, n :| a in arms && b in arms && a in repRows && b in repRows && reg.groupOf(a) == reg.groupOf(b)
                   && n in repRows[b] && !AllAre(repRows[a], n);
    var m :| m in repRows[a] && m != n;
    RowsAreGrounded(loaded, a, m);
    RowsAreGrounded(loaded, b, n);
    var f :| f in loaded && f.arm == a && f.rows == m;
    var g :| g in loaded && g.arm == b && g.rows == n;
    assert Compared(reg, f, g);
  }

  lemma BaselinesByFile(reg: Registry, loaded: seq<Facts>)
    requires Chained(loaded)
    ensures var repRows := IndexOf(loaded).repRows;
            (forall a <- repRows :: reg.isBaseline(a) ==> forall n <- repRows[a] :: AllAre(repRows[a], n))
            <==> forall f <- loaded, g <- loaded :: f.arm == g.arm && reg.isBaseline(f.arm) ==> f.rows == g.rows
  {
    var repRows := IndexOf(loaded).repRows;
    forall f | f in loaded ensures Says(IndexOf(loaded), f) {
      IndexSays(loaded, f);
    }
    if a, n, m :| a in repRows && reg.isBaseline(a) && n in repRows[a] && m in repRows[a] && m != n {
      RowsAreGrounded(loaded, a, m);
      RowsAreGrounded(loaded, a, n);
    }
  }

  lemma {:induction false} KeptPlaced(reg: Registry, files: seq<File>, i: nat)
    requires Consistent(reg, files) && i < |files|
    ensures files[i].Some?
    ensures files[i].value != [] ==>
              Placed(reg, files[i].value) && FactsOf(reg, files[i].value) in Kept(reg, files)
  {
    if i < |files| - 1 {
      KeptPlaced(reg, files[..|files| - 1], i);
    }
  }

  lemma {:induction false} KeptJoins(reg: Registry, files: seq<File>, i: nat, j: nat)
    requires Consistent(reg, files) && i < j < |files| && files[i].Some? && files[i].value != []
    requires files[j].Some? && files[j].value != []
    ensures Repeats(FactsOf(reg, files[i].value), FactsOf(reg, files[j].value))
  {
    var rest := files[..|files| - 1];
    if j < |files| - 1 {
      KeptJoins(reg, rest, i, j);
    } else {
      KeptPlaced(reg, rest, i);
    }
  }

  /**
    What an accepted comparison rests on. Any two of its files from contended arms of one group replayed one
    non-empty trace in full; every row of a file is of one arm and one trace; and no two files of an arm were
    sent at the same instants.
   */
  lemma AcceptedEvidence(reg: Registry, files: seq<File>, i: nat, j: nat)
    requires Consistent(reg, files) && Agreement(reg, Kept(reg, files))
    requires i < j < |files| && files[i] != Some([]) && files[j] != Some([])
    ensures files[i].Some? && files[j].Some?
    ensures OneArm(files[i].value) && OneArm(files[j].value)
    ensures files[i].value[0].arm == files[j].value[0].arm ==>
              || |files[i].value| != |files[j].value|
              || exists k :: 0 <= k < |files[i].value| && files[i].value[k].sentAt != files[j].value[k].sentAt
    ensures Compared(reg, FactsOf(reg, files[i].value), FactsOf(reg, files[j].value)) ==>
              && files[i].value[0].checksum == files[j].value[0].checksum != ""
              && |files[i].value| == |files[j].value|
  {
    KeptPlaced(reg, files, i);
    KeptPlaced(reg, files, j);
    KeptJoins(reg, files, i, j);
    if files[i].value[0].arm == files[j].value[0].arm {
      assert Sends(files[i].value) != Sends(files[j].value);
    }
  }

  /** Two names of one study: equal, or both of the unlabelled one. */
  predicate SameStudy(reg: Registry, a: string, b: string) {
    a == b || (a in {"", reg.unlabelled} && b in {"", reg.unlabelled})
  }

  /** Said of its rows: one arm, one trace, one study, and the registered study admits the arm. */
  predicate WellPlaced(reg: Registry, f: seq<Row>) {
    && f != []
    && (forall r <- f :: r.arm == f[0].arm && r.checksum == f[0].checksum && SameStudy(reg, r.study, f[0].study))
    && (exists name <- reg.studies ::
          name == (if f[0].study == "" then reg.unlabelled else f[0].study) && f[0].arm in reg.studies[name])
  }

  /** Said of their rows: one study, and within an arm another replay of the same trace, treatment and tolerance. */
  predicate SeparateReplays(reg: Registry, f: seq<Row>, g: seq<Row>)
    requires f != [] && g != []
  {
    && SameStudy(reg, f[0].study, g[0].study)
    && (f[0].arm == g[0].arm ==>
          && f[0].checksum == g[0].checksum && f[0].tolerance == g[0].tolerance
          && reg.render(Priorities(f)) == reg.render(Priorities(g)) && reg.hash(Sends(f)) != reg.hash(Sends(g)))
  }

  predicate HasRows(f: File) {
    f.Some? && f.value != []
  }

  lemma StudiesAgree(reg: Registry, a: string, b: string)
    ensures CanonicalStudy(reg, a) == CanonicalStudy(reg, b) <==> SameStudy(reg, a, b)
  {
  }

  lemma PlacedExactly(reg: Registry, f: seq<Row>)
    ensures Placed(reg, f) <==> WellPlaced(reg, f)
  {
    forall a, b ensures CanonicalStudy(reg, a) == CanonicalStudy(reg, b) <==> SameStudy(reg, a, b) {
      StudiesAgree(reg, a, b);
    }
    assert f != [] ==> f[0] in f;
    assert OneArm(f) <==> forall r <- f :: r.arm == f[0].arm && r.checksum == f[0].checksum;
    assert OneStudy(reg, f) <==> forall r <- f :: SameStudy(reg, r.study, f[0].study);
  }

  lemma RepeatsExactly(reg: Registry, f: seq<Row>, g: seq<Row>)
    requires f != [] && g != []
    ensures Repeats(FactsOf(reg, f), FactsOf(reg, g)) <==> SeparateReplays(reg, f, g)
  {
    StudiesAgree(reg, f[0].study, g[0].study);
  }

  lemma {:induction false} KeptFrom(reg: Registry, files: seq<File>, f: Facts) returns (i: nat)
    requires f in Kept(reg, files)
    ensures i < |files| && HasRows(files[i]) && FactsOf(reg, files[i].value) == f
  {
    var n := |files| - 1;
    if HasRows(files[n]) && FactsOf(reg, files[n].value) == f {
      i := n;
    } else {
      i := KeptFrom(reg, files[..n], f);
    }
  }

  /** Every file can be read and is well placed. */
  predicate EachStands(reg: Registry, files: seq<File>) {
    forall f <- files :: f.Some? && (f.value != [] ==> WellPlaced(reg, f.value))
  }

  /** Any two files with rows are separate replays. */
  predicate PairsStand(reg: Registry, files: seq<File>) {
    forall i, j :: 0 <= i < j < |files| && HasRows(files[i]) && HasRows(files[j]) ==>
                     SeparateReplays(reg, files[i].value, files[j].value)
  }

  lemma {:induction false} StandingIsConsistent(reg: Registry, files: seq<File>)
    requires EachStands(reg, files) && PairsStand(reg, files)
    ensures Consistent(reg, files)
  {
    if files != [] {
      var n := |files| - 1;
      var rest, last := files[..n], files[n];
      assert last in files;
      StandingIsConsistent(reg, rest);
      if HasRows(last) {
        PlacedExactly(reg, last.value);
        forall g | g in Kept(reg, rest) ensures Repeats(g, FactsOf(reg, last.value)) {
          var i := KeptFrom(reg, rest, g);
          assert SeparateReplays(reg, files[i].value, files[n].value);
          RepeatsExactly(reg, files[i].value, last.value);
        }
      }
    }
  }

  /** Which files load, of their rows: each stands on its own, and any two of them beside each other. */
  lemma ConsistentExactly(reg: Registry, files: seq<File>)
    ensures Consistent(reg, files) <==> EachStands(reg, files) && PairsStand(reg, files)
  {
    if Consistent(reg, files) {
      forall f | f in files ensures f.Some? && (f.value != [] ==> WellPlaced(reg, f.value)) {
        var i :| 0 <= i < |files| && files[i] == f;
        KeptPlaced(reg, files, i);
        PlacedExactly(reg, f.value);
      }
      forall i, j | 0 <= i < j < |files| && HasRows(files[i]) && HasRows(files[j])
        ensures SeparateReplays(reg, files[i].value, files[j].value)
      {
        KeptJoins(reg, files, i, j);
        RepeatsExactly(reg, files[i].value, files[j].value);
      }
    }
    if EachStands(reg, files) && PairsStand(reg, files) {
      StandingIsConsistent(reg, files);
    }
  }

  /** Said of their rows: contended arms of one group, and repetitions of a baseline, were recorded alike. */
  predicate Alike(reg: Registry, f: seq<Row>, g: seq<Row>)
    requires f != [] && g != []
  {
    && (!reg.isBaseline(f[0].arm) ==> f[0].checksum != "")
    && (!reg.isBaseline(f[0].arm) && !reg.isBaseline(g[0].arm) && reg.groupOf(f[0].arm) == reg.groupOf(g[0].arm) ==>
          f[0].checksum == g[0].checksum && |f| == |g|)
    && (f[0].arm == g[0].arm && reg.isBaseline(f[0].arm) ==> |f| == |g|)
  }

  predicate AllAlike(reg: Registry, files: seq<File>) {
    forall f <- files, g <- files :: HasRows(f) && HasRows(g) ==> Alike(reg, f.value, g.value)
  }

  /** Two facts agree as the comparison needs them to. */
  predicate FactsAgree(reg: Registry, f: Facts, g: Facts) {
    && (!reg.isBaseline(f.arm) ==> f.checksum != "")
    && (Compared(reg, f, g) ==> f.checksum == g.checksum && f.rows == g.rows)
    && (f.arm == g.arm && reg.isBaseline(f.arm) ==> f.rows == g.rows)
  }

  lemma AgreementByPairs(reg: Registry, loaded: seq<Facts>)
    ensures Agreement(reg, loaded) <==> forall f <- loaded, g <- loaded :: FactsAgree(reg, f, g)
  {
    if forall f <- loaded, g <- loaded :: FactsAgree(reg, f, g) {
      forall f, g | f in loaded && g in loaded ensures FactsAgree(reg, f, g) && FactsAgree(reg, f, f) {
      }
    }
  }

  /** Which loaded files agree, of their rows. */
  lemma AgreementExactly(reg: Registry, files: seq<File>)
    requires Consistent(reg, files)
    ensures Agreement(reg, Kept(reg, files)) <==> AllAlike(reg, files)
  {
    AgreementByPairs(reg, Kept(reg, files));
    if Agreement(reg, Kept(reg, files)) {
      forall f, g | f in files && g in files && HasRows(f) && HasRows(g) ensures Alike(reg, f.value, g.value) {
        var i :| 0 <= i < |files| && files[i] == f;
        var j :| 0 <= j < |files| && files[j] == g;
        KeptPlaced(reg, files, i);
        KeptPlaced(reg, files, j);
        assert FactsAgree(reg, FactsOf(reg, f.value), FactsOf(reg, g.value));
      }
    }
    if AllAlike(reg, files) {
      forall f, g | f in Kept(reg, files) && g in Kept(reg, files) ensures FactsAgree(reg, f, g) {
        var i := KeptFrom(reg, files, f);
        var j := KeptFrom(reg, files, g);
        assert files[i] in files && files[j] in files;
      }
    }
  }

  lemma OneFileMore(reg: Registry, files: seq<File>, i: nat)
    requires i < |files|
    ensures Consistent(reg, files[..i + 1]) <==>
              && Consistent(reg, files[..i]) && files[i].Some?
              && (files[i].value != [] ==>
                    Placed(reg, files[i].value) && Joins(Kept(reg, files[..i]), FactsOf(reg, files[i].value)))
    ensures Kept(reg, files[..i + 1]) == Kept(reg, files[..i]) +
              (if files[i].Some? && files[i].value != [] then [FactsOf(reg, files[i].value)] else [])
  {
    assert files[..i + 1][..i] == files[..i];
  }

  lemma {:induction false} RefusedStays(reg: Registry, files: seq<File>, i: nat)
    requires i <= |files| && !Consistent(reg, files[..i])
    ensures !Consistent(reg, files)
  {
    if i == |files| {
      assert files[..i] == files;
    } else {
      var rest := files[..|files| - 1];
      assert rest[..i] == files[..i];
      RefusedStays(reg, rest, i);
    }
  }

  /** The report's two gates together, on the files as they are given. */
  method AcceptEvidence(reg: Registry, files: seq<File>) returns (ok: bool)
    ensures ok <==> Consistent(reg, files) && Agreement(reg, Kept(reg, files))
    ensures ok <==> EachStands(reg, files) && PairsStand(reg, files) && AllAlike(reg, files)
  {
    ConsistentExactly(reg, files);
    if Consistent(reg, files) {
      AgreementExactly(reg, files);
    }
    var e := new ArmEvidence(reg);
    ok := e.Load(files);
    if ok {
      ok := e.RefuseIfTracesDisagree();
    }
  }
}
