/**
 * Filter statistics and the conditional pass-probability table of the
 * filter executor (src/lib/libfilterexec/fexec_stats.c).
 *
 * The table maps a key (filter id, sorted list of the filters that ran
 * before it) to how often that filter ran after exactly those filters and
 * how often it passed.  Its hash function always answers bucket 0, so the
 * table is one list; new nodes go to its head.
 */
module FilterStats {
  import opened Wrappers

  type FilterId = int

  /** The statistics fields of filter_info_t. */
  datatype FilterInfo = FilterInfo(name: string, called: nat, drop: nat, pass: nat, timeNs: nat)

  /** filter_stats_t: `name` is the fixed-size character buffer fs_name. */
  datatype FilterStat = FilterStat(name: seq<char>, objsProcessed: nat, objsDropped: nat, avgExecTime: nat)

  /** filter_prob_t: a table node; num_prev is the length of `prevIds`. */
  datatype ProbNode = ProbNode(curFid: FilterId, prevIds: seq<FilterId>, numPass: nat, numExec: nat)

  // ---------------------------------------------------------------------
  // Statistics

  /** A filter's statistics after fexec_clear_stats: counters and time zero, name kept. */
  function Cleared(fi: FilterInfo): (r: FilterInfo)
    ensures r.name == fi.name
    ensures r.called == 0 && r.drop == 0 && r.pass == 0 && r.timeNs == 0
  {
    fi.(called := 0, drop := 0, pass := 0, timeNs := 0)
  }

  /** The average execution time: total time divided by the call count, 0 if never called. */
  function AverageTime(timeNs: nat, called: nat): (avg: nat)
    ensures called == 0 ==> avg == 0
    ensures called > 0 ==> avg * called <= timeNs < (avg + 1) * called
  {
    if called != 0 then timeNs / called else 0
  }

  /** The characters of a C string held in `buf`: everything before the first NUL. */
  function CString(buf: seq<char>): (s: seq<char>)
    ensures |s| <= |buf| && s == buf[..|s|]
    ensures '\0' !in s
    ensures |s| < |buf| ==> buf[|s|] == '\0'
  {
    if buf == [] || buf[0] == '\0' then [] else [buf[0]] + CString(buf[1..])
  }

  /** How many characters of the C string `src` fit in a buffer of maxName with its final NUL. */
  function NameCut(src: string, maxName: nat): nat
    requires maxName >= 1
  {
    var c := CString(src);
    if |c| < maxName then |c| else maxName - 1
  }

  /**
   * The fs_name buffer of `maxName` characters after strncpy of the C
   * string `src` followed by writing NUL into its last character: the
   * characters of `src` up to the cut, then NUL padding to the end.
   */
  function CopyName(src: string, maxName: nat): (buf: seq<char>)
    requires maxName >= 1
    ensures |buf| == maxName && buf[maxName - 1] == '\0'
    ensures NameCut(src, maxName) < maxName
    ensures buf[..NameCut(src, maxName)] == CString(src)[..NameCut(src, maxName)]
    ensures forall i :: NameCut(src, maxName) <= i < maxName ==> buf[i] == '\0'
  {
    var c := CString(src);
    seq(maxName, i requires 0 <= i < maxName =>
      if i < |c| && i < maxName - 1 then c[i] else '\0')
  }

  /**
   * The copied name, read back as a C string, is the source name cut to at
   * most maxName - 1 characters; characters after a NUL in `src` are not
   * copied.
   */
  lemma {:induction false} CopyNameTruncates(src: string, maxName: nat)
    requires maxName >= 1
    ensures CString(CopyName(src, maxName)) == CString(src)[..NameCut(src, maxName)]
  {
    var buf := CopyName(src, maxName);
    var n := NameCut(src, maxName);
    forall i | 0 <= i < n
      ensures buf[i] != '\0'
    {
      assert buf[i] == buf[..n][i] == CString(src)[i];
    }
    CStringOfPrefix(buf, n);
  }

  /** A buffer whose first n characters are not NUL and whose n-th is NUL holds the C string buf[..n]. */
  lemma {:induction false} CStringOfPrefix(buf: seq<char>, n: nat)
    requires n < |buf| && buf[n] == '\0'
    requires forall i :: 0 <= i < n ==> buf[i] != '\0'
    ensures CString(buf) == buf[..n]
  {
    if n > 0 {
      CStringOfPrefix(buf[1..], n - 1);
      assert buf[..n] == [buf[0]] + buf[1..][..n - 1];
    }
  }

  /**
   * The filter_stats_t that fexec_get_stats fills in for one filter: its
   * counters, its name cut to fit fs_name, and the average time per call.
   */
  function StatOf(fi: FilterInfo, maxName: nat): (st: FilterStat)
    requires maxName >= 1
    ensures st.objsProcessed == fi.called && st.objsDropped == fi.drop
    ensures |st.name| == maxName && CString(st.name) == CString(fi.name)[..NameCut(fi.name, maxName)]
    ensures fi.called == 0 ==> st.avgExecTime == 0
    ensures fi.called > 0 ==> st.avgExecTime * fi.called <= fi.timeNs < (st.avgExecTime + 1) * fi.called
  {
    CopyNameTruncates(fi.name, maxName);
    FilterStat(CopyName(fi.name, maxName), fi.called, fi.drop, AverageTime(fi.timeNs, fi.called))
  }

  /**
   * After fexec_clear_stats a filter reports no objects and no time, under
   * the same name, and clearing twice is clearing once.
   */
  lemma ClearedReportsZero(fi: FilterInfo, maxName: nat)
    requires maxName >= 1
    ensures StatOf(Cleared(fi), maxName) == StatOf(fi, maxName).(objsProcessed := 0, objsDropped := 0, avgExecTime := 0)
  {
  }

  /** How many entries fexec_get_stats writes: filters 0 .. max, as long as there are filters. */
  function StatsWritten(numFilters: nat, max: int): (n: nat)
    ensures n <= numFilters
    ensures n > 0 ==> n - 1 <= max
    ensures n < numFilters ==> n > max
  {
    if max < 0 then 0 else if numFilters <= max + 1 then numFilters else max + 1
  }

  // ---------------------------------------------------------------------
  // Filter-id ordering and sorting (id_comp and qsort)

  /** id_comp: the three-way comparison of two filter ids. */
  function IdComp(d1: FilterId, d2: FilterId): (r: int)
    ensures r == -1 <==> d1 < d2
    ensures r == 0 <==> d1 == d2
    ensures r == 1 <==> d1 > d2
  {
    if d1 < d2 then -1 else if d1 > d2 then 1 else 0
  }

  ghost predicate Sorted(s: seq<FilterId>)
  {
    forall i, j :: 0 <= i < j < |s| ==> s[i] <= s[j]
  }

  /** Inserts `x` into a sorted list, before the first element not below it. */
  function Insert(x: FilterId, s: seq<FilterId>): (r: seq<FilterId>)
    requires Sorted(s)
    ensures Sorted(r) && multiset(r) == multiset(s) + multiset{x}
  {
    if s == [] then [x]
    else if IdComp(x, s[0]) <= 0 then [x] + s
    else
      var rest := Insert(x, s[1..]);
      assert s == [s[0]] + s[1..];
      LowerBoundKept(s[0], x, s[1..], rest);
      [s[0]] + rest
  }

  /** A bound below x and below every element of s is below every element of s with x added. */
  lemma LowerBoundKept(y: FilterId, x: FilterId, s: seq<FilterId>, r: seq<FilterId>)
    requires y <= x && forall k :: 0 <= k < |s| ==> y <= s[k]
    requires multiset(r) == multiset(s) + multiset{x}
    ensures forall k :: 0 <= k < |r| ==> y <= r[k]
  {
    forall k | 0 <= k < |r|
      ensures y <= r[k]
    {
      assert r[k] in multiset(r);
    }
  }

  /** The list sorted by id_comp, as qsort leaves it. */
  function SortIds(s: seq<FilterId>): (r: seq<FilterId>)
    ensures Sorted(r) && multiset(r) == multiset(s)
  {
    if s == [] then []
    else
      assert s == [s[0]] + s[1..];
      Insert(s[0], SortIds(s[1..]))
  }

  /** The head of a sorted list is its least element. */
  lemma SortedHeadLeast(a: seq<FilterId>, x: FilterId)
    requires Sorted(a) && x in multiset(a)
    ensures a[0] <= x
  {
    var i :| 0 <= i < |a| && a[i] == x;
  }

  /** The elements of a list after its head. */
  lemma MultisetTail(a: seq<FilterId>)
    requires a != []
    ensures multiset(a[1..]) == multiset(a) - multiset{a[0]}
  {
    assert a == [a[0]] + a[1..];
  }

  /** Two sorted lists with the same elements are the same list. */
  lemma {:induction false} SortedUnique(a: seq<FilterId>, b: seq<FilterId>)
    requires Sorted(a) && Sorted(b) && multiset(a) == multiset(b)
    ensures a == b
  {
    assert |a| == |b| by {
      assert |a| == |multiset(a)| == |multiset(b)| == |b|;
    }
    if a != [] {
      assert a[0] == b[0] by {
        assert a[0] in multiset(b) && b[0] in multiset(a);
        SortedHeadLeast(a, b[0]);
        SortedHeadLeast(b, a[0]);
      }
      assert multiset(a[1..]) == multiset(b[1..]) by {
        MultisetTail(a);
        MultisetTail(b);
      }
      SortedTail(a);
      SortedTail(b);
      SortedUnique(a[1..], b[1..]);
      assert a == [a[0]] + a[1..] && b == [b[0]] + b[1..];
    }
  }

  /** The tail of a sorted list is sorted. */
  lemma SortedTail(a: seq<FilterId>)
    requires Sorted(a) && a != []
    ensures Sorted(a[1..])
  {
  }

  /** Sorting depends only on the elements: permutations of a list sort to the same list. */
  lemma SortIdsPermutation(a: seq<FilterId>, b: seq<FilterId>)
    requires multiset(a) == multiset(b)
    ensures SortIds(a) == SortIds(b)
  {
    SortedUnique(SortIds(a), SortIds(b));
  }

  // ---------------------------------------------------------------------
  // The probability table as a value

  /** The lookup test of fexec_lookup_prob: same num_prev, same filter, same id list. */
  predicate Matches(n: ProbNode, cur: FilterId, ids: seq<FilterId>)
  {
    |n.prevIds| == |ids| && n.curFid == cur && n.prevIds == ids
  }

  /** The position of the first node for (cur, ids), if any. */
  function Find(table: seq<ProbNode>, cur: FilterId, ids: seq<FilterId>): (r: Option<nat>)
    ensures r.None? <==> forall i :: 0 <= i < |table| ==> !Matches(table[i], cur, ids)
    ensures r.Some? ==> r.value < |table| && Matches(table[r.value], cur, ids)
    ensures r.Some? ==> forall j :: 0 <= j < r.value ==> !Matches(table[j], cur, ids)
  {
    if table == [] then None
    else if Matches(table[0], cur, ids) then Some(0)
    else match Find(table[1..], cur, ids)
      case None => None
      case Some(i) => Some(i + 1)
  }

  /** One more execution of a node, and one more pass if `pass`. */
  function Count(n: ProbNode, pass: bool): ProbNode
  {
    n.(numExec := n.numExec + 1, numPass := if pass then n.numPass + 1 else n.numPass)
  }

  /**
   * Counting one run of (cur, ids): the node is looked up or created at 0/0
   * at the head, then counted.  A node is added exactly when the key had
   * none, and afterwards the key has one.
   */
  function Bump(table: seq<ProbNode>, cur: FilterId, ids: seq<FilterId>, pass: bool): (r: seq<ProbNode>)
    ensures |r| == |table| + (if Find(table, cur, ids).None? then 1 else 0)
    ensures Find(r, cur, ids).Some?
  {
    match Find(table, cur, ids)
    case Some(i) =>
      var r := table[i := Count(table[i], pass)];
      assert Matches(r[i], cur, ids);
      r
    case None =>
      var r := [Count(ProbNode(cur, ids, 0, 0), pass)] + table;
      assert Matches(r[0], cur, ids);
      r
  }

  /**
   * The table after fexec_update_prob: the node for the filter, then the
   * union node.  At most two nodes are added, and the union node exists
   * afterwards.
   */
  function ApplyUpdate(table: seq<ProbNode>, invalidId: FilterId, cur: FilterId,
                       prev: seq<FilterId>, pass: bool): (r: seq<ProbNode>)
    ensures |table| <= |r| <= |table| + 2
    ensures Find(r, invalidId, SortIds(SortIds(prev) + [cur])).Some?
  {
    var sorted := SortIds(prev);
    Bump(Bump(table, cur, sorted, pass), invalidId, SortIds(sorted + [cur]), pass)
  }

  /** (executions, passes) recorded for (cur, ids); (0, 0) when there is no node. */
  function Counts(table: seq<ProbNode>, cur: FilterId, ids: seq<FilterId>): (nat, nat)
  {
    match Find(table, cur, ids)
    case Some(i) => (table[i].numExec, table[i].numPass)
    case None => (0, 0)
  }

  /** The table invariant: passes never exceed executions, ids sorted, one node per key. */
  ghost predicate TableOk(table: seq<ProbNode>)
  {
    (forall i :: 0 <= i < |table| ==> table[i].numPass <= table[i].numExec && Sorted(table[i].prevIds)) &&
    (forall i, j :: 0 <= i < j < |table| ==>
       table[i].curFid != table[j].curFid || table[i].prevIds != table[j].prevIds)
  }

  /** Bump counts one more execution of its own key, and one more pass if `pass`. */
  lemma BumpCountsKey(table: seq<ProbNode>, cur: FilterId, ids: seq<FilterId>, pass: bool)
    ensures Counts(Bump(table, cur, ids, pass), cur, ids).0 == Counts(table, cur, ids).0 + 1
    ensures Counts(Bump(table, cur, ids, pass), cur, ids).1
      == Counts(table, cur, ids).1 + (if pass then 1 else 0)
  {
    var t := Bump(table, cur, ids, pass);
    match Find(table, cur, ids)
    case Some(i) =>
      assert Matches(t[i], cur, ids);
      assert forall j :: 0 <= j < i ==> t[j] == table[j];
      assert Find(t, cur, ids) == Some(i);
    case None =>
      assert Find(t, cur, ids) == Some(0);
  }

  /** Bump leaves the counts of every other key as they were. */
  lemma BumpKeepsOtherKeys(table: seq<ProbNode>, cur: FilterId, ids: seq<FilterId>, pass: bool,
                           cur': FilterId, ids': seq<FilterId>)
    requires cur' != cur || ids' != ids
    ensures Counts(Bump(table, cur', ids', pass), cur, ids) == Counts(table, cur, ids)
  {
    var t := Bump(table, cur', ids', pass);
    match Find(table, cur', ids')
    case Some(i) =>
      forall j | 0 <= j < |t|
        ensures Matches(t[j], cur, ids) <==> Matches(table[j], cur, ids)
      {
        assert t[j].curFid == table[j].curFid && t[j].prevIds == table[j].prevIds;
      }
      FindAgrees(t, table, cur, ids);
    case None =>
      assert t[1..] == table;
      assert !Matches(t[0], cur, ids);
      match Find(table, cur, ids)
      case None =>
      case Some(k) =>
        assert Find(t, cur, ids) == Some(k + 1);
  }

  /** Tables whose nodes match a key at the same positions find it at the same place. */
  lemma FindAgrees(t: seq<ProbNode>, u: seq<ProbNode>, cur: FilterId, ids: seq<FilterId>)
    requires |t| == |u|
    requires forall j :: 0 <= j < |t| ==> (Matches(t[j], cur, ids) <==> Matches(u[j], cur, ids))
    ensures Find(t, cur, ids) == Find(u, cur, ids)
  {
  }

  /** Bump keeps the table invariant when the key's ids are sorted. */
  lemma BumpKeepsTableOk(table: seq<ProbNode>, cur: FilterId, ids: seq<FilterId>, pass: bool)
    requires TableOk(table) && Sorted(ids)
    ensures TableOk(Bump(table, cur, ids, pass))
  {
  }

  /** fexec_update_prob keeps the table invariant; in particular num_pass <= num_exec always. */
  lemma UpdateKeepsTableOk(table: seq<ProbNode>, invalidId: FilterId, cur: FilterId,
                           prev: seq<FilterId>, pass: bool)
    requires TableOk(table)
    ensures TableOk(ApplyUpdate(table, invalidId, cur, prev, pass))
  {
    var sorted := SortIds(prev);
    BumpKeepsTableOk(table, cur, sorted, pass);
    BumpKeepsTableOk(Bump(table, cur, sorted, pass), invalidId, SortIds(sorted + [cur]), pass);
  }

  /** fexec_update_prob counts one run, and one pass if `pass`, for (cur, sorted prev). */
  lemma UpdateCountsFilterNode(table: seq<ProbNode>, invalidId: FilterId, cur: FilterId,
                               prev: seq<FilterId>, pass: bool)
    ensures Counts(ApplyUpdate(table, invalidId, cur, prev, pass), cur, SortIds(prev)).0
      == Counts(table, cur, SortIds(prev)).0 + 1
    ensures Counts(ApplyUpdate(table, invalidId, cur, prev, pass), cur, SortIds(prev)).1
      == Counts(table, cur, SortIds(prev)).1 + (if pass then 1 else 0)
  {
    var sorted := SortIds(prev);
    var union := SortIds(sorted + [cur]);
    // the union key is one id longer, so the second bump leaves this key alone
    assert |union| == |sorted| + 1 by {
      assert |multiset(union)| == |multiset(sorted + [cur])|;
    }
    BumpCountsKey(table, cur, sorted, pass);
    BumpKeepsOtherKeys(Bump(table, cur, sorted, pass), cur, sorted, pass, invalidId, union);
  }

  /**
   * fexec_update_prob counts one run, and one pass if `pass`, for the union
   * node (INVALID_FILTER_ID, sorted prev + cur).
   */
  lemma UpdateCountsUnionNode(table: seq<ProbNode>, invalidId: FilterId, cur: FilterId,
                              prev: seq<FilterId>, pass: bool)
    ensures Counts(ApplyUpdate(table, invalidId, cur, prev, pass), invalidId, SortIds(prev + [cur])).0
      == Counts(table, invalidId, SortIds(prev + [cur])).0 + 1
    ensures Counts(ApplyUpdate(table, invalidId, cur, prev, pass), invalidId, SortIds(prev + [cur])).1
      == Counts(table, invalidId, SortIds(prev + [cur])).1 + (if pass then 1 else 0)
  {
    var sorted := SortIds(prev);
    var union := SortIds(sorted + [cur]);
    assert multiset(sorted + [cur]) == multiset(prev + [cur]);
    SortIdsPermutation(sorted + [cur], prev + [cur]);
    assert |union| == |sorted| + 1 by {
      assert |multiset(union)| == |multiset(sorted + [cur])|;
    }
    var t1 := Bump(table, cur, sorted, pass);
    BumpKeepsOtherKeys(table, invalidId, union, pass, cur, sorted);
    BumpCountsKey(t1, invalidId, union, pass);
  }

  /** Permutations of the same previous-filter list update the same nodes. */
  lemma UpdateIgnoresPrevOrder(table: seq<ProbNode>, invalidId: FilterId, cur: FilterId,
                               prev1: seq<FilterId>, prev2: seq<FilterId>, pass: bool)
    requires multiset(prev1) == multiset(prev2)
    ensures ApplyUpdate(table, invalidId, cur, prev1, pass) == ApplyUpdate(table, invalidId, cur, prev2, pass)
  {
    SortIdsPermutation(prev1, prev2);
  }

  // ---------------------------------------------------------------------
  // filter_data_t

  class FilterData {
    /** fd_filters and fd_num_filters. */
    const filters: array<FilterInfo>
    const numFilters: nat
    /** The single bucket of fd_prob_hash, head first. */
    var probTable: seq<ProbNode>
    /** INVALID_FILTER_ID, the filter id of union nodes. */
    const invalidId: FilterId

    ghost predicate Valid()
      reads this
    {
      numFilters <= filters.Length && TableOk(probTable)
    }

    constructor (infos: seq<FilterInfo>, invalid: FilterId)
      ensures Valid() && fresh(filters)
      ensures filters[..] == infos && numFilters == |infos| && probTable == [] && invalidId == invalid
    {
      filters := new FilterInfo[|infos|](i requires 0 <= i < |infos| => infos[i]);
      numFilters := |infos|;
      probTable := [];
      invalidId := invalid;
    }

    /** fexec_clear_stats: zero the counters of every filter below fd_num_filters, nothing else. */
    method ClearStats()
      requires Valid()
      modifies filters
      ensures Valid()
      ensures forall i :: 0 <= i < filters.Length ==>
        filters[i] == if i < numFilters then Cleared(old(filters[i])) else old(filters[i])
    {
      var i := 0;
      while i < numFilters
        invariant 0 <= i <= numFilters
        invariant forall k :: 0 <= k < filters.Length ==>
          filters[k] == if k < i then Cleared(old(filters[k])) else old(filters[k])
      {
        filters[i] := filters[i].(called := 0, drop := 0, pass := 0, timeNs := 0);
        i := i + 1;
      }
    }

    /**
     * fexec_lookup_prob: walks the list and returns the position of the
     * first node for (cur, ids), or -1 (NULL) when there is none.
     */
    method LookupProb(cur: FilterId, ids: seq<FilterId>) returns (idx: int)
      ensures -1 <= idx < |probTable|
      ensures idx == -1 <==> forall i :: 0 <= i < |probTable| ==> !Matches(probTable[i], cur, ids)
      ensures idx >= 0 ==> Matches(probTable[idx], cur, ids)
      ensures idx >= 0 ==> forall j :: 0 <= j < idx ==> !Matches(probTable[j], cur, ids)
    {
      var i := 0;
      while i < |probTable|
        invariant 0 <= i <= |probTable|
        invariant forall j :: 0 <= j < i ==> !Matches(probTable[j], cur, ids)
      {
        var node := probTable[i];
        if |node.prevIds| == |ids| && node.curFid == cur && node.prevIds == ids {
          return i;
        }
        i := i + 1;
      }
      return -1;
    }

    /** fexec_new_prob: a node for (cur, ids) with 0 runs and 0 passes, inserted at the head. */
    method NewProb(cur: FilterId, ids: seq<FilterId>) returns (idx: int)
      modifies this`probTable
      ensures idx == 0
      ensures probTable == [ProbNode(cur, ids, 0, 0)] + old(probTable)
    {
      probTable := [ProbNode(cur, ids, 0, 0)] + probTable;
      idx := 0;
    }

    /** Looks up or creates the node for (cur, ids) and counts one run of it. */
    method CountRun(cur: FilterId, ids: seq<FilterId>, pass: bool)
      modifies this`probTable
      ensures probTable == Bump(old(probTable), cur, ids, pass)
    {
      var idx := LookupProb(cur, ids);
      assert idx == -1 <==> Find(probTable, cur, ids).None?;
      assert idx >= 0 ==> Find(probTable, cur, ids) == Some(idx);
      if idx == -1 {
        idx := NewProb(cur, ids);
      }
      var node := probTable[idx];
      node := node.(numExec := node.numExec + 1);
      if pass {
        node := node.(numPass := node.numPass + 1);
      }
      probTable := probTable[idx := node];
    }

    /**
     * fexec_update_prob: counts the run of `cur` after the filters in
     * `prevList` (in any order), and the run of their union.
     */
    method UpdateProb(cur: FilterId, prevList: seq<FilterId>, pass: bool)
      requires Valid()
      modifies this`probTable
      ensures Valid()
      ensures probTable == ApplyUpdate(old(probTable), invalidId, cur, prevList, pass)
    {
      UpdateKeepsTableOk(probTable, invalidId, cur, prevList, pass);
      var sorted := SortIds(prevList);
      CountRun(cur, sorted, pass);
      var union := SortIds(sorted + [cur]);
      CountRun(invalidId, union, pass);
    }
  }

  /**
   * fexec_get_stats: -1 when there is no filter data, or when there are
   * more filters than entries 0 .. max (after filling those); otherwise
   * fills one entry per filter and returns 0.
   */
  method GetStats(fdata: FilterData?, max: int, fstats: array<FilterStat>, maxName: nat) returns (rc: int)
    requires maxName >= 1
    requires fdata != null ==> fdata.Valid() && StatsWritten(fdata.numFilters, max) <= fstats.Length
    modifies fstats
    ensures fdata == null ==> rc == -1 && fstats[..] == old(fstats[..])
    ensures fdata != null ==> (rc == -1 <==> fdata.numFilters > 0 && fdata.numFilters - 1 > max)
    ensures fdata != null ==> rc == 0 || rc == -1
    ensures fdata != null ==> forall i :: 0 <= i < fstats.Length ==>
      fstats[i] == if i < StatsWritten(fdata.numFilters, max)
                   then StatOf(fdata.filters[i], maxName) else old(fstats[i])
  {
    if fdata == null {
      return -1;
    }
    var i := 0;
    while i < fdata.numFilters
      invariant 0 <= i <= fdata.numFilters
      invariant i <= StatsWritten(fdata.numFilters, max)
      invariant forall k :: 0 <= k < fstats.Length ==>
        fstats[k] == if k < i then StatOf(fdata.filters[k], maxName) else old(fstats[k])
    {
      var curFilt := fdata.filters[i];
      if i > max {
        return -1;
      }
      var name := CopyName(curFilt.name, maxName);
      var avg := if curFilt.called != 0 then curFilt.timeNs / curFilt.called else 0;
      fstats[i] := FilterStat(name, curFilt.called, curFilt.drop, avg);
      i := i + 1;
    }
    return 0;
  }
}
