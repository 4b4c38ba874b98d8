/** What a run of snapshots reports: which processes are new, and which have terminated. */
module ProcessHistory {
  datatype Key = Key(created: int, id: nat)

  /** A snapshot's keys, and those of the processes it reports new and terminated. */
  datatype Batch = Batch(now: set<Key>, appeared: seq<Key>, gone: seq<Key>)

  datatype Report = New | Terminated

  ghost predicate Distinct(ks: seq<Key>) { forall i, j :: 0 <= i < j < |ks| ==> ks[i] != ks[j] }

  /** New is current minus previous, terminated is previous minus current, each once. */
  ghost predicate IsBatch(was: set<Key>, b: Batch) {
    && Distinct(b.appeared) && (forall k :: k in b.appeared <==> k in b.now && k !in was)
    && Distinct(b.gone) && (forall k :: k in b.gone <==> k in was && k !in b.now)
  }

  /** The keys of the last snapshot. */
  ghost function Live(run: seq<Batch>): set<Key> { if run == [] then {} else run[|run| - 1].now }

  ghost predicate IsRun(run: seq<Batch>) {
    run == [] || (IsRun(run[..|run| - 1]) && IsBatch(Live(run[..|run| - 1]), run[|run| - 1]))
  }

  /** A report for each time the key is in the list. */
  ghost function Each(ks: seq<Key>, k: Key, r: Report): seq<Report> {
    if ks == [] then [] else (if ks[0] == k then [r] else []) + Each(ks[1..], k, r)
  }

  /** All the reports of a key, in order. */
  ghost function ReportsOf(run: seq<Batch>, k: Key): seq<Report> {
    if run == [] then []
    else
      var b := run[|run| - 1];
      ReportsOf(run[..|run| - 1], k) + Each(b.appeared, k, New) + Each(b.gone, k, Terminated)
  }

  lemma {:induction false} EachOnce(ks: seq<Key>, k: Key, r: Report)
    requires Distinct(ks)
    ensures Each(ks, k, r) == if k in ks then [r] else []
  {
    if ks != [] {
      EachOnce(ks[1..], k, r);
      assert ks == [ks[0]] + ks[1..];
    }
  }

  /** New and terminated in turn, starting with new, and the last one new exactly if it is live. */
  ghost predicate Alternates(rs: seq<Report>, live: bool) {
    && (forall i :: 0 <= i < |rs| ==> rs[i] == if i % 2 == 0 then New else Terminated)
    && (live <==> rs != [] && rs[|rs| - 1] == New)
  }

  lemma OneMore(rs: seq<Report>, live: bool)
    requires Alternates(rs, live)
    ensures Alternates(rs + [if live then Terminated else New], !live)
  {}

  /** One snapshot reports a key at most once. */
  lemma OneReport(b: Batch, was: set<Key>, rs: seq<Report>, k: Key)
    requires IsBatch(was, b)
    ensures rs + Each(b.appeared, k, New) + Each(b.gone, k, Terminated)
         == if (k in was) == (k in b.now) then rs else rs + [if k in was then Terminated else New]
  {
    EachOnce(b.appeared, k, New);
    EachOnce(b.gone, k, Terminated);
  }

  /** Over any run the reports of each key alternate, starting with new, and end with new exactly if it is live. */
  lemma {:induction false} ReportsAlternate(run: seq<Batch>, k: Key)
    requires IsRun(run)
    ensures Alternates(ReportsOf(run, k), k in Live(run))
  {
    hide Alternates, IsBatch, Each;
    if run == [] {
      NoReports();
    } else {
      var before, b := run[..|run| - 1], run[|run| - 1];
      ReportsAlternate(before, k);
      OneReport(b, Live(before), ReportsOf(before, k), k);
      OneMore(ReportsOf(before, k), k in Live(before));
    }
  }

  lemma NoReports()
    ensures Alternates([], false)
  {}

  lemma RunMore(run: seq<Batch>, b: Batch)
    requires IsRun(run) && IsBatch(Live(run), b)
    ensures IsRun(run + [b]) && Live(run + [b]) == b.now
  {
    assert (run + [b])[..|run|] == run;
  }
}
