/** The fetched issue list and what the front end derives from it: the
    summary-to-key and key-to-summary dictionaries, the keyword filter and the
    stable sort of the task list page. */
module Tasks {
  import opened Text

  /** An issue as the search endpoint returns it: its `key` and its
      `fields.summary`. */
  datatype Task = Task(key: String, summary: String)

  // ------------------------------------------------- dict comprehension

  /** `{k: v for (k, v) in pairs}`: later pairs overwrite earlier ones. */
  function ToMap<K(==), V>(pairs: seq<(K, V)>): (m: map<K, V>)
    ensures forall i :: 0 <= i < |pairs| ==> pairs[i].0 in m
    ensures forall k :: k in m ==> exists i :: 0 <= i < |pairs| && pairs[i].0 == k
  {
    if pairs == [] then map[]
    else
      var last := pairs[|pairs| - 1];
      var m := ToMap(pairs[..|pairs| - 1])[last.0 := last.1];
      assert forall i :: 0 <= i < |pairs| - 1 ==> pairs[..|pairs| - 1][i] == pairs[i];
      m
  }

  /** A key is bound to the value of the last pair that mentions it. */
  lemma {:induction false} ToMapLastWins<K, V>(pairs: seq<(K, V)>, i: nat)
    requires i < |pairs|
    requires forall j :: i < j < |pairs| ==> pairs[j].0 != pairs[i].0
    ensures pairs[i].0 in ToMap(pairs) && ToMap(pairs)[pairs[i].0] == pairs[i].1
  {
    var n := |pairs| - 1;
    if i < n {
      var front := pairs[..n];
      assert front[i] == pairs[i];
      forall j | i < j < |front| ensures front[j].0 != front[i].0 {
        assert front[j] == pairs[j];
      }
      ToMapLastWins(front, i);
    }
  }

  function SummaryPairs(tasks: seq<Task>): (pairs: seq<(String, String)>)
    ensures |pairs| == |tasks|
    ensures forall i :: 0 <= i < |tasks| ==> pairs[i] == (tasks[i].summary, tasks[i].key)
  {
    seq(|tasks|, i requires 0 <= i < |tasks| => (tasks[i].summary, tasks[i].key))
  }

  function KeyPairs(tasks: seq<Task>): (pairs: seq<(String, String)>)
    ensures |pairs| == |tasks|
    ensures forall i :: 0 <= i < |tasks| ==> pairs[i] == (tasks[i].key, tasks[i].summary)
  {
    seq(|tasks|, i requires 0 <= i < |tasks| => (tasks[i].key, tasks[i].summary))
  }

  /** `{t['fields']['summary']: t['key'] for t in tasks}`. */
  function SummaryToKey(tasks: seq<Task>): map<String, String> {
    ToMap(SummaryPairs(tasks))
  }

  /** `{t['key']: t['fields']['summary'] for t in tasks}`. */
  function KeyToSummary(tasks: seq<Task>): map<String, String> {
    ToMap(KeyPairs(tasks))
  }

  /** The summaries in the dictionary are exactly the fetched summaries, and
      each resolves to the key of the LAST task in fetch order that has it. */
  lemma SummaryToKeySpec(tasks: seq<Task>, i: nat)
    requires i < |tasks|
    requires forall j :: i < j < |tasks| ==> tasks[j].summary != tasks[i].summary
    ensures tasks[i].summary in SummaryToKey(tasks) && SummaryToKey(tasks)[tasks[i].summary] == tasks[i].key
  {
    var pairs := SummaryPairs(tasks);
    forall j | i < j < |pairs| ensures pairs[j].0 != pairs[i].0 {
    }
    ToMapLastWins(pairs, i);
  }

  /** A name is in the dictionary only if some fetched task has it as summary. */
  lemma SummaryToKeyDomain(tasks: seq<Task>, name: String)
    ensures name in SummaryToKey(tasks) <==> exists i :: 0 <= i < |tasks| && tasks[i].summary == name
  {
    var pairs := SummaryPairs(tasks);
    if name in SummaryToKey(tasks) {
      var i :| 0 <= i < |pairs| && pairs[i].0 == name;
      assert tasks[i].summary == name;
    }
    if exists i :: 0 <= i < |tasks| && tasks[i].summary == name {
      var i :| 0 <= i < |tasks| && tasks[i].summary == name;
      assert pairs[i].0 == name;
    }
  }

  /** The same last-wins rule for the key-to-summary dictionary. */
  lemma KeyToSummarySpec(tasks: seq<Task>, i: nat)
    requires i < |tasks|
    requires forall j :: i < j < |tasks| ==> tasks[j].key != tasks[i].key
    ensures tasks[i].key in KeyToSummary(tasks) && KeyToSummary(tasks)[tasks[i].key] == tasks[i].summary
  {
    var pairs := KeyPairs(tasks);
    forall j | i < j < |pairs| ensures pairs[j].0 != pairs[i].0 {
    }
    ToMapLastWins(pairs, i);
  }

  /** A key is in the dictionary only if some fetched task has it. */
  lemma KeyToSummaryDomain(tasks: seq<Task>, key: String)
    ensures key in KeyToSummary(tasks) <==> exists i :: 0 <= i < |tasks| && tasks[i].key == key
  {
    var pairs := KeyPairs(tasks);
    if key in KeyToSummary(tasks) {
      var i :| 0 <= i < |pairs| && pairs[i].0 == key;
      assert tasks[i].key == key;
    }
    if exists i :: 0 <= i < |tasks| && tasks[i].key == key {
      var i :| 0 <= i < |tasks| && tasks[i].key == key;
      assert pairs[i].0 == key;
    }
  }

  /** Two issues with the same summary: the one fetched later is chosen. */
  lemma DuplicateSummaryExample()
    ensures SummaryToKey([Task("K1", "Fix bug"), Task("K2", "Fix bug")])["Fix bug"] == "K2"
  {
    SummaryToKeySpec([Task("K1", "Fix bug"), Task("K2", "Fix bug")], 1);
  }

  // ------------------------------------------------------------ filter

  /** `keyword in t['fields']['summary'].lower()`. */
  predicate Matches(t: Task, keyword: String) {
    Contains(Lower(t.summary), keyword)
  }

  /** `[t for t in tasks if keyword in t['fields']['summary'].lower()]`. */
  function Filter(tasks: seq<Task>, keyword: String): (r: seq<Task>)
    ensures |r| <= |tasks|
  {
    if tasks == [] then []
    else (if Matches(tasks[0], keyword) then [tasks[0]] else []) + Filter(tasks[1..], keyword)
  }

  /** Filtering a concatenation filters each part: the kept tasks stay in
      their original relative order. */
  lemma {:induction false} FilterAppend(a: seq<Task>, b: seq<Task>, keyword: String)
    ensures Filter(a + b, keyword) == Filter(a, keyword) + Filter(b, keyword)
  {
    if a != [] {
      assert (a + b)[1..] == a[1..] + b;
      FilterAppend(a[1..], b, keyword);
    } else {
      assert a + b == b;
    }
  }

  lemma {:induction false} FilterCount(tasks: seq<Task>, keyword: String, t: Task)
    ensures multiset(Filter(tasks, keyword))[t] == if Matches(t, keyword) then multiset(tasks)[t] else 0
  {
    if tasks != [] {
      FilterCount(tasks[1..], keyword, t);
      var h := if Matches(tasks[0], keyword) then [tasks[0]] else [];
      assert multiset(Filter(tasks, keyword)) == multiset(h) + multiset(Filter(tasks[1..], keyword));
      assert multiset(tasks) == multiset{tasks[0]} + multiset(tasks[1..]) by {
        assert tasks == [tasks[0]] + tasks[1..];
      }
    }
  }

  /** A task is kept exactly when it was fetched and its lower-cased summary
      contains the keyword; a matching task is kept as many times as it occurs. */
  lemma FilterMembers(tasks: seq<Task>, keyword: String, t: Task)
    ensures t in Filter(tasks, keyword) <==> t in tasks && Matches(t, keyword)
    ensures Matches(t, keyword) ==> multiset(Filter(tasks, keyword))[t] == multiset(tasks)[t]
    ensures !Matches(t, keyword) ==> multiset(Filter(tasks, keyword))[t] == 0
  {
    FilterCount(tasks, keyword, t);
  }

  // -------------------------------------------------------------- sort

  /** `sort_by`: the lower-cased summary when it is `'summary'`, the key for
      any other value. */
  datatype SortField = BySummary | ByKey

  function SortKey(t: Task, field: SortField): String {
    if field == BySummary then Lower(t.summary) else t.key
  }

  /** Key `a` may stand before key `b`: ascending `a <= b`, descending
      `a >= b`. */
  predicate InOrder(a: String, b: String, descending: bool) {
    if descending then !Less(a, b) else !Less(b, a)
  }

  predicate Sorted(s: seq<Task>, field: SortField, descending: bool) {
    forall i, j :: 0 <= i < j < |s| ==> InOrder(SortKey(s[i], field), SortKey(s[j], field), descending)
  }

  /** Insert `t` before the first element it may precede; elements with an
      equal key are such elements, so `t` goes before them. */
  function Insert(t: Task, s: seq<Task>, field: SortField, descending: bool): (r: seq<Task>)
    ensures |r| == |s| + 1
  {
    if s == [] then [t]
    else if InOrder(SortKey(t, field), SortKey(s[0], field), descending) then [t] + s
    else [s[0]] + Insert(t, s[1..], field, descending)
  }

  /** `sorted(tasks, key=..., reverse=descending)`: a stable sort, so with
      `reverse` too tasks with equal keys keep their fetched order. */
  function Sort(tasks: seq<Task>, field: SortField, descending: bool): (r: seq<Task>)
    ensures |r| == |tasks|
  {
    if tasks == [] then [] else Insert(tasks[0], Sort(tasks[1..], field, descending), field, descending)
  }

  lemma InOrderReflexive(a: String, descending: bool)
    ensures InOrder(a, a, descending)
  {
    LessIrreflexive(a);
  }

  lemma InOrderTotal(a: String, b: String, descending: bool)
    ensures InOrder(a, b, descending) || InOrder(b, a, descending)
  {
    if Less(a, b) {
      LessAsymmetric(a, b);
    }
  }

  lemma InOrderTransitive(a: String, b: String, c: String, descending: bool)
    requires InOrder(a, b, descending) && InOrder(b, c, descending)
    ensures InOrder(a, c, descending)
  {
    if descending {
      if Less(a, c) {
        LessTotal(a, b);
        if Less(b, a) {
          LessTransitive(b, a, c);
        }
      }
    } else {
      if Less(c, a) {
        LessTotal(a, b);
        if Less(a, b) {
          LessTransitive(c, a, b);
        }
      }
    }
  }

  lemma {:induction false} InsertPermutes(t: Task, s: seq<Task>, field: SortField, descending: bool)
    ensures multiset(Insert(t, s, field, descending)) == multiset{t} + multiset(s)
  {
    if s != [] && !InOrder(SortKey(t, field), SortKey(s[0], field), descending) {
      InsertPermutes(t, s[1..], field, descending);
      assert s == [s[0]] + s[1..];
    }
  }

  lemma {:induction false} InsertMembers(t: Task, s: seq<Task>, field: SortField, descending: bool)
    ensures forall x :: x in Insert(t, s, field, descending) <==> x == t || x in s
  {
    if s != [] && !InOrder(SortKey(t, field), SortKey(s[0], field), descending) {
      InsertMembers(t, s[1..], field, descending);
      assert s == [s[0]] + s[1..];
    }
  }

  /** A sorted sequence stays sorted under a head that may precede all of it. */
  lemma ConsSorted(h: Task, s: seq<Task>, field: SortField, descending: bool)
    requires Sorted(s, field, descending)
    requires forall x :: x in s ==> InOrder(SortKey(h, field), SortKey(x, field), descending)
    ensures Sorted([h] + s, field, descending)
  {
    var r := [h] + s;
    forall i, j | 0 <= i < j < |r| ensures InOrder(SortKey(r[i], field), SortKey(r[j], field), descending) {
      assert r[j] == s[j - 1];
      if i > 0 {
        assert r[i] == s[i - 1];
      }
    }
  }

  lemma {:induction false} InsertSorted(t: Task, s: seq<Task>, field: SortField, descending: bool)
    requires Sorted(s, field, descending)
    ensures Sorted(Insert(t, s, field, descending), field, descending)
  {
    var kt := SortKey(t, field);
    if s == [] {
    } else if InOrder(kt, SortKey(s[0], field), descending) {
      forall x | x in s ensures InOrder(kt, SortKey(x, field), descending) {
        var j :| 0 <= j < |s| && s[j] == x;
        if j > 0 {
          InOrderTransitive(kt, SortKey(s[0], field), SortKey(x, field), descending);
        }
      }
      ConsSorted(t, s, field, descending);
    } else {
      InOrderTotal(kt, SortKey(s[0], field), descending);
      InsertSorted(t, s[1..], field, descending);
      InsertMembers(t, s[1..], field, descending);
      forall x | x in Insert(t, s[1..], field, descending)
        ensures InOrder(SortKey(s[0], field), SortKey(x, field), descending)
      {
        if x != t {
          var k :| 0 <= k < |s[1..]| && s[1..][k] == x;
          assert s[k + 1] == x;
        }
      }
      ConsSorted(s[0], Insert(t, s[1..], field, descending), field, descending);
    }
  }

  /** The tasks of `s` whose sort key is `k`, in order. */
  function WithKey(s: seq<Task>, k: String, field: SortField): seq<Task> {
    if s == [] then []
    else (if SortKey(s[0], field) == k then [s[0]] else []) + WithKey(s[1..], k, field)
  }

  /** Two pieces commute in front of a sequence when one of them is empty. */
  lemma SwapEmpty<T>(a: seq<T>, b: seq<T>, w: seq<T>)
    requires a == [] || b == []
    ensures a + (b + w) == b + (a + w)
  {
    if a == [] {
      assert a + (b + w) == b + w == b + (a + w);
    } else {
      assert a + (b + w) == a + w == b + (a + w);
    }
  }

  lemma WithKeyCons(x: Task, s: seq<Task>, k: String, field: SortField)
    ensures WithKey([x] + s, k, field) == (if SortKey(x, field) == k then [x] else []) + WithKey(s, k, field)
  {
    assert ([x] + s)[1..] == s;
  }

  lemma {:induction false} InsertStable(t: Task, s: seq<Task>, k: String, field: SortField, descending: bool)
    ensures WithKey(Insert(t, s, field, descending), k, field) ==
      (if SortKey(t, field) == k then [t] else []) + WithKey(s, k, field)
  {
    var kt := SortKey(t, field);
    if s == [] {
      WithKeyCons(t, [], k, field);
    } else if InOrder(kt, SortKey(s[0], field), descending) {
      WithKeyCons(t, s, k, field);
    } else {
      InOrderReflexive(kt, descending);
      var rest := Insert(t, s[1..], field, descending);
      InsertStable(t, s[1..], k, field, descending);
      WithKeyCons(s[0], rest, k, field);
      var w := WithKey(s[1..], k, field);
      var mine := if kt == k then [t] else [];
      var first := if SortKey(s[0], field) == k then [s[0]] else [];
      assert WithKey(s, k, field) == first + w;
      SwapEmpty(first, mine, w);
    }
  }

  /** The sort returns a permutation of its input, ordered by the sort key
      (nondecreasing, or nonincreasing when descending), and stable: the
      tasks that share any one key appear in the order they were fetched. */
  lemma {:induction false} SortSpec(tasks: seq<Task>, field: SortField, descending: bool)
    ensures multiset(Sort(tasks, field, descending)) == multiset(tasks)
    ensures Sorted(Sort(tasks, field, descending), field, descending)
    ensures forall k :: WithKey(Sort(tasks, field, descending), k, field) == WithKey(tasks, k, field)
  {
    if tasks != [] {
      var rest := Sort(tasks[1..], field, descending);
      SortSpec(tasks[1..], field, descending);
      InsertPermutes(tasks[0], rest, field, descending);
      assert tasks == [tasks[0]] + tasks[1..];
      InsertSorted(tasks[0], rest, field, descending);
      forall k ensures WithKey(Sort(tasks, field, descending), k, field) == WithKey(tasks, k, field) {
        InsertStable(tasks[0], rest, k, field, descending);
      }
    }
  }
}
