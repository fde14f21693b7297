/**
 * The dual-path engine of `AsyncDualMDNSResolver.resolve`: on a cache miss
 * an mDNS task and a parent-DNS task run side by side; the engine waits for
 * the first to finish, waits for the other only if that one failed, merges
 * what finished (mDNS records first, de-duplicated on hostname, port and
 * host), cancels what did not, and returns the merged records or one
 * combined error.
 *
 * Scheduling is not modelled: which tasks had finished when the first wait
 * returned is an input, and each task's eventual outcome is an input.
 */
module Race {
  import opened Wrappers
  import opened Records
  import opened Routing
  import opened Lookup

  /** A task as the engine sees it at decision time. */
  datatype TaskState = Pending | Failed(msg: string) | Succeeded(results: seq<ResolveResult>)

  predicate Terminal(t: TaskState)
  {
    !t.Pending?
  }

  /** The terminal state of a task that ran to completion with outcome `r`. */
  function TaskOf(r: Result<seq<ResolveResult>, string>): (t: TaskState)
    ensures Terminal(t)
    ensures t.Failed? <==> r.Err?
    ensures r.Ok? ==> t == Succeeded(r.value)
    ensures r.Err? ==> t == Failed(r.error)
  {
    match r
    case Ok(rs) => Succeeded(rs)
    case Err(msg) => Failed(msg)
  }

  /** Which tasks had finished when the wait for the first completion returned. */
  datatype FirstCompleted = MdnsOnly | DnsOnly | BothDone

  /** The two task states right after the first-completion wait. */
  function AtFirstCompletion(first: FirstCompleted, mFinal: TaskState, dFinal: TaskState): (r: (TaskState, TaskState))
    requires Terminal(mFinal) && Terminal(dFinal)
    ensures Terminal(r.0) || Terminal(r.1)
    ensures r.0 == Pending || r.0 == mFinal
    ensures r.1 == Pending || r.1 == dFinal
  {
    match first
    case MdnsOnly => (mFinal, Pending)
    case DnsOnly => (Pending, dFinal)
    case BothDone => (mFinal, dFinal)
  }

  /**
   * If a finished task failed, wait until the other one finishes too (it
   * then holds its eventual state); a success never waits for the other task.
   */
  function WaitForOther(m: TaskState, d: TaskState, mFinal: TaskState, dFinal: TaskState): (r: (TaskState, TaskState))
    requires Terminal(mFinal) && Terminal(dFinal)
    requires m == Pending || m == mFinal
    requires d == Pending || d == dFinal
    requires Terminal(m) || Terminal(d)
    ensures Terminal(r.0) || Terminal(r.1)
    ensures r.0.Failed? || r.1.Failed? ==> Terminal(r.0) && Terminal(r.1)
    ensures r.0 == Pending || r.0 == mFinal
    ensures r.1 == Pending || r.1 == dFinal
    ensures Terminal(m) ==> r.0 == m
    ensures Terminal(d) ==> r.1 == d
    ensures r.0.Pending? ==> r.1.Succeeded?
    ensures r.1.Pending? ==> r.0.Succeeded?
    ensures !m.Failed? && !d.Failed? ==> r == (m, d)
  {
    if m.Failed? then (m, dFinal)
    else if d.Failed? then (mFinal, d)
    else (m, d)
  }

  /** The records a task adds to the merge: a success's records, nothing otherwise. */
  function Contribution(t: TaskState): seq<ResolveResult>
  {
    if t.Succeeded? then t.results else []
  }

  /** The error messages a task adds: a failure's message, nothing otherwise. */
  function ErrorOf(t: TaskState): seq<string>
  {
    if t.Failed? then [t.msg] else []
  }

  /** All records the given tasks add, task by task in order. */
  function Contributions(ts: seq<TaskState>): seq<ResolveResult>
    decreases |ts|
  {
    if |ts| == 0 then [] else Contributions(ts[..|ts| - 1]) + Contribution(ts[|ts| - 1])
  }

  /** All error messages the given tasks add, task by task in order. */
  function Errors(ts: seq<TaskState>): seq<string>
    decreases |ts|
  {
    if |ts| == 0 then [] else Errors(ts[..|ts| - 1]) + ErrorOf(ts[|ts| - 1])
  }

  lemma PairContributions(m: TaskState, d: TaskState)
    ensures Contributions([m, d]) == Contribution(m) + Contribution(d)
    ensures Errors([m, d]) == ErrorOf(m) + ErrorOf(d)
  {
    assert [m, d][..1] == [m];
    assert [m][..0] == [];
    assert Contributions([m]) == Contribution(m);
    assert Errors([m]) == ErrorOf(m);
  }

  /** The de-duplication keys of a sequence of records. */
  function Keys(s: seq<ResolveResult>): set<Key>
    decreases |s|
  {
    if |s| == 0 then {} else Keys(s[..|s| - 1]) + {KeyOf(s[|s| - 1])}
  }

  lemma {:induction false} KeysAppend(a: seq<ResolveResult>, b: seq<ResolveResult>)
    ensures Keys(a + b) == Keys(a) + Keys(b)
    decreases |b|
  {
    if |b| == 0 {
      assert a + b == a;
    } else {
      var b' := b[..|b| - 1];
      assert (a + b)[..|a + b| - 1] == a + b';
      KeysAppend(a, b');
    }
  }

  lemma {:induction false} KeyInKeys(s: seq<ResolveResult>, i: int)
    requires 0 <= i < |s|
    ensures KeyOf(s[i]) in Keys(s)
    decreases |s|
  {
    if i < |s| - 1 {
      KeyInKeys(s[..|s| - 1], i);
    }
  }

  /** No two records share a de-duplication key. */
  predicate DistinctKeys(s: seq<ResolveResult>)
  {
    forall i, j :: 0 <= i < j < |s| ==> KeyOf(s[i]) != KeyOf(s[j])
  }

  /**
   * The merge's result: the records in order, each kept only if no earlier
   * record had the same key.
   */
  function KeepFirst(s: seq<ResolveResult>): (r: seq<ResolveResult>)
    ensures |r| <= |s|
    ensures forall x :: x in r ==> x in s
    decreases |s|
  {
    if |s| == 0 then []
    else
      var p := s[..|s| - 1];
      var x := s[|s| - 1];
      KeepFirst(p) + (if KeyOf(x) in Keys(p) then [] else [x])
  }

  /** The earliest record of `s` with key `k`. */
  function FirstWithKey(s: seq<ResolveResult>, k: Key): (r: ResolveResult)
    requires k in Keys(s)
    ensures KeyOf(r) == k && r in s
    decreases |s|
  {
    var p := s[..|s| - 1];
    if k in Keys(p) then FirstWithKey(p, k) else s[|s| - 1]
  }

  /** Every key of the input survives the merge. */
  lemma {:induction false} KeepFirstKeys(s: seq<ResolveResult>)
    ensures Keys(KeepFirst(s)) == Keys(s)
    decreases |s|
  {
    if |s| > 0 {
      var p := s[..|s| - 1];
      var x := s[|s| - 1];
      KeepFirstKeys(p);
      var tail := if KeyOf(x) in Keys(p) then [] else [x];
      KeysAppend(KeepFirst(p), tail);
      assert Keys([x]) == {KeyOf(x)} by {
        assert [x][..0] == [];
      }
    }
  }

  /** The merge never keeps two records with the same key. */
  lemma {:induction false} KeepFirstDistinct(s: seq<ResolveResult>)
    ensures DistinctKeys(KeepFirst(s))
    decreases |s|
  {
    if |s| > 0 {
      var p := s[..|s| - 1];
      var x := s[|s| - 1];
      KeepFirstDistinct(p);
      if KeyOf(x) !in Keys(p) {
        var r' := KeepFirst(p);
        KeepFirstKeys(p);
        forall i | 0 <= i < |r'|
          ensures KeyOf(r'[i]) != KeyOf(x)
        {
          KeyInKeys(r', i);
        }
      }
    }
  }

  /** Each kept record is the first record of the input with its key: the first occurrence wins. */
  lemma {:induction false} KeepFirstFirstWins(s: seq<ResolveResult>)
    ensures forall x :: x in KeepFirst(s) ==> KeyOf(x) in Keys(s) && FirstWithKey(s, KeyOf(x)) == x
    decreases |s|
  {
    if |s| > 0 {
      var p := s[..|s| - 1];
      var last := s[|s| - 1];
      KeepFirstFirstWins(p);
      forall x | x in KeepFirst(s)
        ensures KeyOf(x) in Keys(s) && FirstWithKey(s, KeyOf(x)) == x
      {
        if x in KeepFirst(p) {
          assert KeyOf(x) in Keys(p);
        } else {
          assert x == last && KeyOf(last) !in Keys(p);
        }
      }
    }
  }

  lemma {:induction false} KeyAbsent(s: seq<ResolveResult>, k: Key)
    requires forall i :: 0 <= i < |s| ==> KeyOf(s[i]) != k
    ensures k !in Keys(s)
    decreases |s|
  {
    if |s| > 0 {
      KeyAbsent(s[..|s| - 1], k);
    }
  }

  /** What is already free of duplicates passes the merge unchanged. */
  lemma {:induction false} KeepFirstOfDistinct(s: seq<ResolveResult>)
    requires DistinctKeys(s)
    ensures KeepFirst(s) == s
    decreases |s|
  {
    if |s| > 0 {
      var p := s[..|s| - 1];
      var x := s[|s| - 1];
      assert DistinctKeys(p) by {
        forall i, j | 0 <= i < j < |p|
          ensures KeyOf(p[i]) != KeyOf(p[j])
        {
          assert p[i] == s[i] && p[j] == s[j];
        }
      }
      KeepFirstOfDistinct(p);
      forall i | 0 <= i < |p|
        ensures KeyOf(p[i]) != KeyOf(x)
      {
        assert p[i] == s[i];
      }
      KeyAbsent(p, KeyOf(x));
      assert s == p + [x];
    }
  }

  /**
   * Records merged from `a` then `b`: the merge of `a` comes first and
   * unchanged, and nothing after it repeats a key of `a`.
   */
  lemma {:induction false} KeepFirstPrefix(a: seq<ResolveResult>, b: seq<ResolveResult>)
    ensures KeepFirst(a) <= KeepFirst(a + b)
    ensures forall i :: |KeepFirst(a)| <= i < |KeepFirst(a + b)| ==> KeyOf(KeepFirst(a + b)[i]) !in Keys(a)
    decreases |b|
  {
    if |b| == 0 {
      assert a + b == a;
    } else {
      var b' := b[..|b| - 1];
      var x := b[|b| - 1];
      assert (a + b)[..|a + b| - 1] == a + b';
      assert (a + b)[|a + b| - 1] == x;
      KeepFirstPrefix(a, b');
      KeysAppend(a, b');
    }
  }

  /** A non-empty input leaves a non-empty merge. */
  lemma KeepFirstNonEmpty(s: seq<ResolveResult>)
    requires |s| > 0
    ensures |KeepFirst(s)| > 0
  {
    KeepFirstKeys(s);
    KeyInKeys(s, 0);
  }

  /** Merging one more record appends it exactly when its key is new. */
  lemma SnocStep(before: seq<ResolveResult>, x: ResolveResult)
    ensures KeepFirst(before + [x]) == KeepFirst(before) + (if KeyOf(x) in Keys(before) then [] else [x])
    ensures Keys(before + [x]) == Keys(before) + {KeyOf(x)}
  {
    assert (before + [x])[..|before|] == before;
  }

  /**
   * The inner loop of the merge: append each record whose key has not been
   * seen, and mark its key as seen. `done` is what was merged before.
   */
  method AddUnseen(ghost done: seq<ResolveResult>, results: seq<ResolveResult>, seen: set<Key>, records: seq<ResolveResult>)
    returns (results': seq<ResolveResult>, seen': set<Key>)
    requires results == KeepFirst(done) && seen == Keys(done)
    ensures results' == KeepFirst(done + records) && seen' == Keys(done + records)
  {
    results', seen' := results, seen;
    var i := 0;
    assert done + records[..i] == done;
    while i < |records|
      invariant 0 <= i <= |records|
      invariant results' == KeepFirst(done + records[..i]) && seen' == Keys(done + records[..i])
    {
      var record := records[i];
      SnocStep(done + records[..i], record);
      SliceStep(done, records, i);
      var key := KeyOf(record);
      if key !in seen' {
        seen' := seen' + {key};
        results' := results' + [record];
      } else {
        assert seen' + {key} == seen' && results' + [] == results';
      }
      i := i + 1;
    }
    assert records[..i] == records;
  }

  /** Taking one more record extends the processed prefix by that record. */
  lemma SliceStep(done: seq<ResolveResult>, records: seq<ResolveResult>, i: int)
    requires 0 <= i < |records|
    ensures done + records[..i + 1] == (done + records[..i]) + [records[i]]
  {
    assert records[..i + 1] == records[..i] + [records[i]];
  }

  /** Extending the processed prefix of tasks by one task appends its contribution and its error. */
  lemma PrefixStep(tasks: seq<TaskState>, t: int)
    requires 0 <= t < |tasks|
    ensures Contributions(tasks[..t + 1]) == Contributions(tasks[..t]) + Contribution(tasks[t])
    ensures Errors(tasks[..t + 1]) == Errors(tasks[..t]) + ErrorOf(tasks[t])
  {
    assert tasks[..t + 1][..t] == tasks[..t];
  }

  /** One step of the merge loop: fold one finished or unfinished task into the running results. */
  method MergeTask(ghost done: seq<ResolveResult>, results: seq<ResolveResult>, seen: set<Key>, errors: seq<string>, task: TaskState)
    returns (results': seq<ResolveResult>, seen': set<Key>, errors': seq<string>)
    requires results == KeepFirst(done) && seen == Keys(done)
    ensures results' == KeepFirst(done + Contribution(task)) && seen' == Keys(done + Contribution(task))
    ensures errors' == errors + ErrorOf(task)
  {
    if task.Pending? {
      results', seen', errors' := results, seen, errors;
      assert done + Contribution(task) == done && errors + ErrorOf(task) == errors;
    } else if task.Failed? {
      results', seen', errors' := results, seen, errors + [task.msg];
      assert done + Contribution(task) == done;
    } else {
      results', seen' := AddUnseen(done, results, seen, task.results);
      errors' := errors;
      assert errors + ErrorOf(task) == errors;
    }
  }

  /** Cancelling the next task when it is unfinished keeps `cancelled` equal to the unfinished tasks seen so far. */
  lemma CancelStep(tasks: seq<TaskState>, t: int, cancelled: set<nat>)
    requires 0 <= t < |tasks|
    requires forall i :: i in cancelled <==> 0 <= i < t && tasks[i].Pending?
    ensures forall i :: i in (if tasks[t].Pending? then cancelled + {t} else cancelled) <==> 0 <= i < t + 1 && tasks[i].Pending?
  {
  }

  /**
   * The merge loop: for each task in order, a failure's message is
   * collected, a success's records are appended unless their key was seen,
   * and an unfinished task is cancelled.
   */
  method Merge(tasks: seq<TaskState>) returns (results: seq<ResolveResult>, errors: seq<string>, cancelled: set<nat>)
    ensures results == KeepFirst(Contributions(tasks))
    ensures errors == Errors(tasks)
    ensures forall i :: i in cancelled <==> 0 <= i < |tasks| && tasks[i].Pending?
  {
    results, errors, cancelled := [], [], {};
    var seen: set<Key> := {};
    var t := 0;
    while t < |tasks|
      invariant 0 <= t <= |tasks|
      invariant results == KeepFirst(Contributions(tasks[..t]))
      invariant seen == Keys(Contributions(tasks[..t]))
      invariant errors == Errors(tasks[..t])
      invariant forall i :: i in cancelled <==> 0 <= i < t && tasks[i].Pending?
    {
      PrefixStep(tasks, t);
      CancelStep(tasks, t, cancelled);
      if tasks[t].Pending? {
        cancelled := cancelled + {t};
      }
      results, seen, errors := MergeTask(Contributions(tasks[..t]), results, seen, errors, tasks[t]);
      t := t + 1;
    }
    assert tasks[..t] == tasks;
  }

  /** Python's `sep.join(parts)`. */
  function Join(parts: seq<string>, sep: string): (r: string)
    ensures |parts| == 0 ==> r == ""
    ensures |parts| == 1 ==> r == parts[0]
    ensures |parts| > 0 ==> parts[0] <= r
    ensures |parts| == 2 ==> r == parts[0] + sep + parts[1]
    ensures |parts| > 1 ==> parts[0] + sep <= r
    decreases |parts|
  {
    if |parts| == 0 then ""
    else if |parts| == 1 then parts[0]
    else parts[0] + sep + Join(parts[1..], sep)
  }

  /** The final choice: the merged records if there are any, else one error joining the messages. */
  function Decide(results: seq<ResolveResult>, errors: seq<string>): (r: Result<seq<ResolveResult>, Error>)
    ensures r.Ok? <==> |results| > 0
    ensures r.Ok? ==> r.value == results
    ensures r.Err? ==> r.error.OSError? && r.error.strerror == Join(errors, ", ")
  {
    if |results| > 0 then Ok(results) else Err(OSError(Join(errors, ", ")))
  }

  /** Wait, merge and decide, given each task's eventual state and which finished first. */
  function Engine(mFinal: TaskState, dFinal: TaskState, first: FirstCompleted): (r: Result<seq<ResolveResult>, Error>)
    requires Terminal(mFinal) && Terminal(dFinal)
    ensures r.Err? ==> r.error.OSError?
    ensures r.Ok? ==> |r.value| > 0 && DistinctKeys(r.value)
    ensures r.Ok? ==> forall x :: x in r.value ==> x in Contribution(mFinal) + Contribution(dFinal)
  {
    var (m0, d0) := AtFirstCompletion(first, mFinal, dFinal);
    var (m, d) := WaitForOther(m0, d0, mFinal, dFinal);
    PairContributions(m, d);
    KeepFirstDistinct(Contributions([m, d]));
    Decide(KeepFirst(Contributions([m, d])), Errors([m, d]))
  }

  /**
   * The merge of the two tasks as the engine leaves them: no repeated key,
   * every key of a finished success kept, the mDNS records first, and only
   * failures' messages collected, mDNS first.
   */
  lemma {:induction false} MergedTasks(m: TaskState, d: TaskState)
    ensures var rs := KeepFirst(Contributions([m, d]));
      && DistinctKeys(rs)
      && Keys(rs) == Keys(Contribution(m)) + Keys(Contribution(d))
      && KeepFirst(Contribution(m)) <= rs
      && (forall i :: |KeepFirst(Contribution(m))| <= i < |rs| ==> KeyOf(rs[i]) !in Keys(Contribution(m)))
      && Errors([m, d]) == ErrorOf(m) + ErrorOf(d)
  {
    PairContributions(m, d);
    var s := Contribution(m) + Contribution(d);
    KeepFirstDistinct(s);
    KeepFirstKeys(s);
    KeysAppend(Contribution(m), Contribution(d));
    KeepFirstPrefix(Contribution(m), Contribution(d));
  }

  /** A non-empty success of either path that the engine sees is returned, whatever the other path did. */
  lemma {:induction false} SuccessIsReturned(mFinal: TaskState, dFinal: TaskState, first: FirstCompleted)
    requires Terminal(mFinal) && Terminal(dFinal)
    requires (mFinal.Succeeded? && |mFinal.results| > 0 && first != DnsOnly)
          || (dFinal.Succeeded? && |dFinal.results| > 0 && first != MdnsOnly)
    ensures Engine(mFinal, dFinal, first).Ok?
    ensures mFinal.Succeeded? && first != DnsOnly ==>
      KeepFirst(mFinal.results) <= Engine(mFinal, dFinal, first).value
    ensures dFinal.Succeeded? && |dFinal.results| > 0 && first != MdnsOnly ==>
      Keys(dFinal.results) <= Keys(Engine(mFinal, dFinal, first).value)
  {
    var (m0, d0) := AtFirstCompletion(first, mFinal, dFinal);
    var (m, d) := WaitForOther(m0, d0, mFinal, dFinal);
    PairContributions(m, d);
    if mFinal.Succeeded? && |mFinal.results| > 0 && first != DnsOnly {
      assert m == mFinal;
      KeepFirstNonEmpty(Contribution(m) + Contribution(d));
    } else {
      assert d == dFinal;
      KeepFirstNonEmpty(Contribution(m) + Contribution(d));
    }
    if mFinal.Succeeded? && first != DnsOnly {
      KeepFirstPrefix(Contribution(m), Contribution(d));
    }
    if dFinal.Succeeded? && |dFinal.results| > 0 && first != MdnsOnly {
      assert d == dFinal;
      MergedTasks(m, d);
    }
  }

  /** An mDNS success seen first is returned as is: the engine does not wait for DNS. */
  lemma {:induction false} FastMdnsSuccessWins(records: seq<ResolveResult>, dFinal: TaskState)
    requires Terminal(dFinal) && |records| > 0
    ensures Engine(Succeeded(records), dFinal, MdnsOnly) == Ok(KeepFirst(records))
  {
    PairContributions(Succeeded(records), Pending);
    assert records + [] == records;
    KeepFirstNonEmpty(records);
  }

  /** A DNS success seen first is returned as is: the engine does not wait for mDNS and cancels it. */
  lemma {:induction false} FastDnsSuccessWins(mFinal: TaskState, records: seq<ResolveResult>)
    requires Terminal(mFinal) && |records| > 0
    ensures Engine(mFinal, Succeeded(records), DnsOnly) == Ok(KeepFirst(records))
  {
    PairContributions(Pending, Succeeded(records));
    assert [] + records == records;
    KeepFirstNonEmpty(records);
  }

  /** When mDNS fails, the engine waits for DNS, and DNS's records are the answer. */
  lemma {:induction false} DnsRescuesFailedMdns(msg: string, records: seq<ResolveResult>, first: FirstCompleted)
    requires |records| > 0
    ensures Engine(Failed(msg), Succeeded(records), first) == Ok(KeepFirst(records))
  {
    var (m0, d0) := AtFirstCompletion(first, Failed(msg), Succeeded(records));
    var (m, d) := WaitForOther(m0, d0, Failed(msg), Succeeded(records));
    PairContributions(m, d);
    assert m == Failed(msg) || m == Pending;
    assert d == Succeeded(records);
    assert [] + records == records;
    KeepFirstNonEmpty(records);
  }

  /** When DNS fails, the engine waits for mDNS, and mDNS's records are the answer. */
  lemma {:induction false} MdnsRescuesFailedDns(records: seq<ResolveResult>, msg: string, first: FirstCompleted)
    requires |records| > 0
    ensures Engine(Succeeded(records), Failed(msg), first) == Ok(KeepFirst(records))
  {
    var (m0, d0) := AtFirstCompletion(first, Succeeded(records), Failed(msg));
    var (m, d) := WaitForOther(m0, d0, Succeeded(records), Failed(msg));
    PairContributions(m, d);
    assert m == Succeeded(records);
    assert d == Failed(msg) || d == Pending;
    assert records + [] == records;
    KeepFirstNonEmpty(records);
  }

  /**
   * One path fails and the other returns no records. The failure's message is
   * raised alone, unless the empty success finished first: then the failed path
   * was still running, is cancelled, and the raised message is empty.
   */
  lemma {:induction false} SingleFailureRaised(msg: string, first: FirstCompleted)
    ensures Engine(Failed(msg), Succeeded([]), first) == Err(OSError(if first == DnsOnly then "" else msg))
    ensures Engine(Succeeded([]), Failed(msg), first) == Err(OSError(if first == MdnsOnly then "" else msg))
  {
    EmptyMergeRaisesCollectedErrors(Failed(msg), Succeeded([]), first);
    EmptyMergeRaisesCollectedErrors(Succeeded([]), Failed(msg), first);
    assert Join([msg], ", ") == msg;
  }

  /** Both paths failing raises one error: the mDNS message, a comma and a space, the DNS message. */
  lemma {:induction false} BothFailuresCombined(mdnsMsg: string, dnsMsg: string, first: FirstCompleted)
    ensures Engine(Failed(mdnsMsg), Failed(dnsMsg), first) == Err(OSError(mdnsMsg + ", " + dnsMsg))
  {
    PairContributions(Failed(mdnsMsg), Failed(dnsMsg));
    assert Join([mdnsMsg, dnsMsg], ", ") == mdnsMsg + ", " + Join([dnsMsg], ", ");
  }

  /** Records both paths return at once are merged once each, mDNS records first. */
  lemma {:induction false} SimultaneousSuccessesMerged(mRecords: seq<ResolveResult>, dRecords: seq<ResolveResult>)
    requires |mRecords| > 0
    ensures var r := Engine(Succeeded(mRecords), Succeeded(dRecords), BothDone);
      && r == Ok(KeepFirst(mRecords + dRecords))
      && DistinctKeys(r.value)
      && Keys(r.value) == Keys(mRecords) + Keys(dRecords)
      && KeepFirst(mRecords) <= r.value
  {
    var m, d := Succeeded(mRecords), Succeeded(dRecords);
    assert AtFirstCompletion(BothDone, m, d) == (m, d);
    assert WaitForOther(m, d, m, d) == (m, d);
    PairContributions(m, d);
    assert Contributions([m, d]) == mRecords + dRecords;
    MergedTasks(m, d);
    KeepFirstNonEmpty(mRecords + dRecords);
  }

  /** An empty merge raises the joined messages of exactly the failed paths. */
  lemma {:induction false} EmptyMergeRaisesCollectedErrors(mFinal: TaskState, dFinal: TaskState, first: FirstCompleted)
    requires Terminal(mFinal) && Terminal(dFinal)
    requires Contribution(mFinal) == [] && Contribution(dFinal) == []
    ensures Engine(mFinal, dFinal, first).Err?
    ensures var (m0, d0) := AtFirstCompletion(first, mFinal, dFinal);
      var (m, d) := WaitForOther(m0, d0, mFinal, dFinal);
      Engine(mFinal, dFinal, first) == Err(OSError(Join(ErrorOf(m) + ErrorOf(d), ", ")))
  {
    var (m0, d0) := AtFirstCompletion(first, mFinal, dFinal);
    var (m, d) := WaitForOther(m0, d0, mFinal, dFinal);
    PairContributions(m, d);
    assert Contribution(m) == [] && Contribution(d) == [];
    assert Contributions([m, d]) == [];
  }

  /**
   * `AsyncDualMDNSResolver.resolve`: as the single-path lookup up to the
   * cache check; on a miss the mDNS lookup races the parent resolver.
   */
  function Resolve(
    timeout: Option<real>, hasHandle: bool,
    host: string, port: int, family: int,
    d: Discovery, parent: Result<seq<ResolveResult>, string>, first: FirstCompleted): (r: Resolution<Error>)
    ensures !IsMdnsName(host) ==> r == Resolution(Raised(parent), None)
    ensures r.requestMillis.Some? <==>
      IsMdnsName(host) && family in FAMILY_TO_IP_VERSION && hasHandle && !d.cacheHit && !IsFalsy(timeout)
  {
    if !IsMdnsName(host) then
      Resolution(Raised(parent), None)
    else
      match MakeResolver(host, family)
      case None => Resolution(Err(KeyError(family)), None)
      case Some(q) =>
        if !hasHandle then
          Resolution(Err(AttributeError("zeroconf")), None)
        else if d.cacheHit then
          Resolution(Raised(AddressesFromInfoOrRaise(q, d.fromCache, family)), None)
        else
          var mdns := ResolveMdns(timeout, q, family, d);
          Resolution(Engine(TaskOf(mdns.outcome), TaskOf(parent), first), mdns.requestMillis)
  }

  /** Names without the suffix get the parent's answer unchanged; nothing races. */
  lemma NonMdnsNamesDelegate(
    timeout: Option<real>, hasHandle: bool, host: string, port: int, family: int,
    d: Discovery, parent: Result<seq<ResolveResult>, string>, first: FirstCompleted)
    requires !IsMdnsName(host)
    ensures Resolve(timeout, hasHandle, host, port, family, d, parent, first) == Resolution(Raised(parent), None)
  {
  }

  /**
   * An IPv4 lookup of a `.local` name whose mDNS request finds nothing,
   * while DNS answers with one record, returns exactly that record.
   */
  lemma {:induction false} DnsAnswerScenario(
    timeout: Option<real>, host: string, d: Discovery, port: int, record: ResolveResult, first: FirstCompleted)
    requires IsMdnsName(host)
    requires !d.cacheHit && d.fromCache.ipv4 == [] && d.fromRequest.ipv4 == []
    ensures Resolve(timeout, true, host, port, AF_INET, d, Ok([record]), first).outcome == Ok([record])
  {
    var q := Query(AddressResolverIPv4, Normalise(host));
    assert MakeResolver(host, AF_INET) == Some(q);
    assert AddressesByVersion(d.fromCache, V4Only) == [];
    assert AddressesByVersion(d.fromRequest, V4Only) == [];
    var mdns := ResolveMdns(timeout, q, AF_INET, d);
    assert mdns.outcome == Err(MDNS_LOOKUP_FAILED);
    DnsRescuesFailedMdns(MDNS_LOOKUP_FAILED, [record], first);
    KeepFirstOfDistinct([record]);
    assert Resolve(timeout, true, host, port, AF_INET, d, Ok([record]), first)
        == Resolution(Engine(Failed(MDNS_LOOKUP_FAILED), Succeeded([record]), first), mdns.requestMillis);
  }

  /**
   * Until the race starts the dual variant is the single-path one: for a
   * suffix-less name, an unknown family, a dropped handle or a cache hit
   * both give the same answer and send the same request (none).
   */
  lemma DualAgreesUntilRace(
    timeout: Option<real>, hasHandle: bool, host: string, port: int, family: int,
    d: Discovery, parent: Result<seq<ResolveResult>, string>, first: FirstCompleted)
    requires !IsMdnsName(host) || family !in FAMILY_TO_IP_VERSION || !hasHandle || d.cacheHit
    ensures Resolve(timeout, hasHandle, host, port, family, d, parent, first)
         == Lookup.Resolve(timeout, hasHandle, host, port, family, d, parent)
  {
  }

  /** A cache hit in the dual variant sends no request and does not consult DNS. */
  lemma DualCacheHitSendsNoRequest(
    timeout: Option<real>, host: string, port: int, family: int,
    d: Discovery, parent: Result<seq<ResolveResult>, string>, later: Answers,
    p2: Result<seq<ResolveResult>, string>, first: FirstCompleted)
    requires IsMdnsName(host) && family in FAMILY_TO_IP_VERSION && d.cacheHit
    ensures Resolve(timeout, true, host, port, family, d, parent, first).requestMillis == None
    ensures Resolve(timeout, true, host, port, family, d, parent, first)
         == Resolve(None, true, host, port, family, d.(fromRequest := later), p2, first)
  {
    DualAgreesUntilRace(timeout, true, host, port, family, d, parent, first);
    DualAgreesUntilRace(None, true, host, port, family, d.(fromRequest := later), p2, first);
    Lookup.CacheHitSendsNoRequest(timeout, host, port, family, d, parent, later);
    Lookup.MdnsNamesIgnoreParent(None, true, host, port, family, d.(fromRequest := later), parent, p2);
  }
}
