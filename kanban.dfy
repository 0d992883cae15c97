/** The board of src/app/kanban/KanbanBoard.tsx: the `columns` memo, which groups the loaded
    jobs by status and sorts each of the ten status columns by last update, newest first; and
    `changeStatus`, which relabels a card at once and reverts it when the `PATCH` fails.

    A card's `lastUpdate` is the time its `last_update_at` text denotes (`None`: null or
    empty). The comparator's `tb - ta` is modelled as the order on those times; `Array.sort`
    is stable, and so is the insertion sort that stands for it here. */
module Kanban {
  import opened Wrappers
  import opened Statuses

  datatype Card = Card(id: string, company: string, role: string, status: string,
                       lastUpdate: Option<int>, source: Option<string>)

  // ---------------------------------------------------------------------------------------
  // Grouping

  /** The cards with the given status, in list order. */
  function WithStatus(jobs: seq<Card>, k: string): (r: seq<Card>)
    ensures |r| <= |jobs|
  {
    if jobs == [] then []
    else WithStatus(jobs[..|jobs| - 1], k) + (if jobs[|jobs| - 1].status == k then [jobs[|jobs| - 1]] else [])
  }

  /** A card is in the column of its status and of no other. */
  lemma {:induction false} WithStatusMembers(jobs: seq<Card>, k: string, c: Card)
    ensures c in WithStatus(jobs, k) <==> c in jobs && c.status == k
    decreases |jobs|
  {
    if jobs != [] {
      var init := jobs[..|jobs| - 1];
      WithStatusMembers(init, k, c);
      assert jobs == init + [jobs[|jobs| - 1]];
    }
  }

  lemma WithStatusNone(jobs: seq<Card>, k: string)
    requires forall c :: c in jobs ==> c.status != k
    ensures WithStatus(jobs, k) == []
  {
    if WithStatus(jobs, k) != [] {
      WithStatusMembers(jobs, k, WithStatus(jobs, k)[0]);
    }
  }

  /** The keys of the `map` record in insertion order: the ten status columns, then each
      other status at its first appearance. */
  function ColumnKeys(jobs: seq<Card>): seq<string> {
    if jobs == [] then StatusNames
    else
      var keys := ColumnKeys(jobs[..|jobs| - 1]);
      if jobs[|jobs| - 1].status in keys then keys else keys + [jobs[|jobs| - 1].status]
  }

  predicate Distinct(keys: seq<string>) {
    forall i, j :: 0 <= i < j < |keys| ==> keys[i] != keys[j]
  }

  /** The keys are distinct and are exactly the ten names and the statuses that occur. */
  lemma {:induction false} ColumnKeysShape(jobs: seq<Card>)
    ensures Distinct(ColumnKeys(jobs))
    ensures |ColumnKeys(jobs)| >= |StatusNames| && ColumnKeys(jobs)[..|StatusNames|] == StatusNames
    ensures forall k :: k in ColumnKeys(jobs) <==> k in StatusNames || exists c :: c in jobs && c.status == k
    decreases |jobs|
  {
    if jobs == [] {
      NamesDistinct();
    } else {
      var init := jobs[..|jobs| - 1];
      var last := jobs[|jobs| - 1];
      ColumnKeysShape(init);
      assert jobs == init + [last];
      forall k ensures k in ColumnKeys(jobs) <==> k in StatusNames || exists c :: c in jobs && c.status == k {
        if k in StatusNames || exists c :: c in init && c.status == k {
        } else if k == last.status {
          assert last in jobs;
        } else {
          assert forall c :: c in jobs ==> c in init || c == last;
        }
      }
    }
  }

  // ---------------------------------------------------------------------------------------
  // Sorting by recency

  /** The sort key: the time of the last update, 0 when there is none. */
  function Key(c: Card): int {
    c.lastUpdate.GetOr(0)
  }

  predicate NewestFirst(s: seq<Card>) {
    forall i, j :: 0 <= i < j < |s| ==> Key(s[i]) >= Key(s[j])
  }

  /** Puts `x` before the first card that is not newer than it. */
  function Insert(x: Card, t: seq<Card>): (r: seq<Card>)
    ensures |r| == |t| + 1
  {
    if t == [] || Key(x) >= Key(t[0]) then [x] + t else [t[0]] + Insert(x, t[1..])
  }

  /** The comparator sort `(a, b) => tb - ta`. */
  function SortByRecency(s: seq<Card>): (r: seq<Card>)
    ensures |r| == |s|
  {
    if s == [] then [] else Insert(s[0], SortByRecency(s[1..]))
  }

  lemma {:induction false} InsertCards(x: Card, t: seq<Card>)
    ensures multiset(Insert(x, t)) == multiset(t) + multiset{x}
    decreases |t|
  {
    if t != [] && Key(x) < Key(t[0]) {
      InsertCards(x, t[1..]);
      assert t == [t[0]] + t[1..];
    }
  }

  lemma {:induction false} InsertHead(x: Card, t: seq<Card>)
    ensures Insert(x, t)[0] == x || (t != [] && Insert(x, t)[0] == t[0])
  {
  }

  lemma {:induction false} InsertNewestFirst(x: Card, t: seq<Card>)
    requires NewestFirst(t)
    ensures NewestFirst(Insert(x, t))
    decreases |t|
  {
    if t != [] && Key(x) < Key(t[0]) {
      var rest := Insert(x, t[1..]);
      InsertNewestFirst(x, t[1..]);
      InsertHead(x, t[1..]);
      var r := [t[0]] + rest;
      assert Insert(x, t) == r;
      assert forall j :: 0 < j < |r| ==> r[j] == rest[j - 1];
      assert Key(t[0]) >= Key(rest[0]);
    }
  }

  /** Each column is sorted newest first and holds the same cards. */
  lemma {:induction false} SortByRecencySpec(s: seq<Card>)
    ensures NewestFirst(SortByRecency(s))
    ensures multiset(SortByRecency(s)) == multiset(s)
    decreases |s|
  {
    if s != [] {
      SortByRecencySpec(s[1..]);
      InsertNewestFirst(s[0], SortByRecency(s[1..]));
      InsertCards(s[0], SortByRecency(s[1..]));
      assert s == [s[0]] + s[1..];
    }
  }

  /** A column already newest first is left as it is: in particular cards without a last
      update keep their order. */
  lemma {:induction false} SortKeepsSorted(s: seq<Card>)
    requires NewestFirst(s)
    ensures SortByRecency(s) == s
    decreases |s|
  {
    if s != [] {
      SortKeepsSorted(s[1..]);
      assert s == [s[0]] + s[1..];
    }
  }

  /** The cards whose sort key is `v`, in order. */
  function WithKey(s: seq<Card>, v: int): (r: seq<Card>)
    ensures |r| <= |s|
  {
    if s == [] then [] else (if Key(s[0]) == v then [s[0]] else []) + WithKey(s[1..], v)
  }

  /** Inserting a card puts it ahead of every card with the same key. */
  lemma {:induction false} InsertWithKey(x: Card, t: seq<Card>, v: int)
    ensures WithKey(Insert(x, t), v) == (if Key(x) == v then [x] else []) + WithKey(t, v)
    decreases |t|
  {
    if t == [] || Key(x) >= Key(t[0]) {
      assert ([x] + t)[1..] == t;
    } else {
      var r := Insert(x, t[1..]);
      InsertWithKey(x, t[1..], v);
      assert ([t[0]] + r)[1..] == r;
    }
  }

  /** The sort is stable: cards with equal keys keep their relative order. */
  lemma {:induction false} SortIsStable(s: seq<Card>, v: int)
    ensures WithKey(SortByRecency(s), v) == WithKey(s, v)
    decreases |s|
  {
    if s != [] {
      SortIsStable(s[1..], v);
      InsertWithKey(s[0], SortByRecency(s[1..]), v);
    }
  }

  // ---------------------------------------------------------------------------------------
  // The `columns` memo

  /** What the memo holds under a key: the ten status columns sorted, other columns in
      list order. */
  function Column(jobs: seq<Card>, k: string): seq<Card> {
    if k in StatusNames then SortByRecency(WithStatus(jobs, k)) else WithStatus(jobs, k)
  }

  /** The columns one after another, in key order. */
  function Concat(cols: map<string, seq<Card>>, keys: seq<string>): seq<Card>
    requires forall k :: k in keys ==> k in cols
  {
    if keys == [] then [] else cols[keys[0]] + Concat(cols, keys[1..])
  }

  /** The memo's columns for the given keys, one after another. */
  function FlatColumns(jobs: seq<Card>, keys: seq<string>): seq<Card> {
    if keys == [] then [] else Column(jobs, keys[0]) + FlatColumns(jobs, keys[1..])
  }

  /** The unsorted groups for the given keys, one after another. */
  function FlatGroups(jobs: seq<Card>, keys: seq<string>): seq<Card> {
    if keys == [] then [] else WithStatus(jobs, keys[0]) + FlatGroups(jobs, keys[1..])
  }

  lemma {:induction false} ConcatIsFlat(jobs: seq<Card>, cols: map<string, seq<Card>>, keys: seq<string>)
    requires forall k :: k in keys ==> k in cols && cols[k] == Column(jobs, k)
    ensures Concat(cols, keys) == FlatColumns(jobs, keys)
    decreases |keys|
  {
    if keys != [] {
      ConcatIsFlat(jobs, cols, keys[1..]);
    }
  }

  lemma ColumnKeysPush(jobs: seq<Card>, c: Card)
    ensures ColumnKeys(jobs + [c]) ==
              if c.status in ColumnKeys(jobs) then ColumnKeys(jobs) else ColumnKeys(jobs) + [c.status]
  {
    assert (jobs + [c])[..|jobs + [c]| - 1] == jobs;
  }

  lemma ColumnNamesDistinct()
    ensures Distinct(StatusNames)
  {
    NamesDistinct();
  }

  lemma StatusColumnsPresent(jobs: seq<Card>)
    ensures forall s :: s in StatusNames ==> s in ColumnKeys(jobs)
  {
    ColumnKeysShape(jobs);
  }

  /** `for (const s of STATUS_COLUMNS) map[s] = []`. */
  method NewColumns() returns (cols: map<string, seq<Card>>, keys: seq<string>)
    ensures keys == StatusNames
    ensures forall k :: k in cols <==> k in keys
    ensures forall k :: k in cols ==> cols[k] == []
  {
    cols := map[];
    keys := [];
    for n := 0 to |StatusNames|
      invariant keys == StatusNames[..n]
      invariant forall k :: k in cols <==> k in keys
      invariant forall k :: k in cols ==> cols[k] == []
    {
      cols := cols[StatusNames[n] := []];
      keys := keys + [StatusNames[n]];
      assert StatusNames[..n + 1] == StatusNames[..n] + [StatusNames[n]];
    }
    assert StatusNames[..|StatusNames|] == StatusNames;
  }

  /** `for (const j of jobs) { if (!map[j.status]) map[j.status] = []; map[j.status].push(j) }`. */
  method PushCards(jobs: seq<Card>, cols0: map<string, seq<Card>>, keys0: seq<string>)
    returns (cols: map<string, seq<Card>>, keys: seq<string>)
    requires keys0 == StatusNames
    requires forall k :: k in cols0 <==> k in keys0
    requires forall k :: k in cols0 ==> cols0[k] == []
    ensures keys == ColumnKeys(jobs)
    ensures forall k :: k in cols <==> k in keys
    ensures forall k :: k in cols ==> cols[k] == WithStatus(jobs, k)
  {
    cols, keys := cols0, keys0;
    for i := 0 to |jobs|
      invariant keys == ColumnKeys(jobs[..i])
      invariant forall k :: k in cols <==> k in keys
      invariant forall k :: k in cols ==> cols[k] == WithStatus(jobs[..i], k)
    {
      var j := jobs[i];
      assert jobs[..i + 1] == jobs[..i] + [j];
      ColumnKeysPush(jobs[..i], j);
      forall k ensures WithStatus(jobs[..i + 1], k) == WithStatus(jobs[..i], k) + (if j.status == k then [j] else []) {
        WithStatusPush(jobs[..i], j, k);
      }
      if j.status !in cols {
        ColumnKeysShape(jobs[..i]);
        WithStatusNone(jobs[..i], j.status);
        cols := cols[j.status := []];
        keys := keys + [j.status];
      }
      cols := cols[j.status := cols[j.status] + [j]];
    }
    assert jobs[..|jobs|] == jobs;
  }

  /** `for (const s of STATUS_COLUMNS) map[s].sort(...)`, for the given list of names. */
  method SortColumns(jobs: seq<Card>, cols0: map<string, seq<Card>>, names: seq<string>)
    returns (cols: map<string, seq<Card>>)
    requires Distinct(names)
    requires forall s :: s in names ==> s in cols0
    requires forall k :: k in cols0 ==> cols0[k] == WithStatus(jobs, k)
    ensures forall k :: k in cols <==> k in cols0
    ensures forall k :: k in cols ==> cols[k] == if k in names then SortByRecency(WithStatus(jobs, k)) else WithStatus(jobs, k)
  {
    cols := cols0;
    for n := 0 to |names|
      invariant forall k :: k in cols <==> k in cols0
      invariant forall k :: k in cols ==>
                  cols[k] == if k in names[..n] then SortByRecency(WithStatus(jobs, k)) else WithStatus(jobs, k)
    {
      var s := names[n];
      assert names[..n + 1] == names[..n] + [s];
      assert s !in names[..n];
      assert cols[s] == WithStatus(jobs, s);
      cols := cols[s := SortByRecency(cols[s])];
      forall k | k in cols
        ensures cols[k] == if k in names[..n + 1] then SortByRecency(WithStatus(jobs, k)) else WithStatus(jobs, k)
      {
        if k != s {
          assert (k in names[..n + 1]) == (k in names[..n]);
        }
      }
    }
    assert names[..|names|] == names;
  }

  /** The `columns` memo: the ten status columns, even empty, then a column per other status;
      every column holds the cards of its status, the ten sorted newest first; and the
      columns in key order hold exactly the loaded jobs. */
  method GroupColumns(jobs: seq<Card>) returns (cols: map<string, seq<Card>>, keys: seq<string>)
    ensures keys == ColumnKeys(jobs)
    ensures forall k :: k in cols <==> k in keys
    ensures forall k :: k in cols ==> cols[k] == Column(jobs, k)
    ensures multiset(Concat(cols, keys)) == multiset(jobs)
  {
    cols, keys := NewColumns();
    cols, keys := PushCards(jobs, cols, keys);
    StatusColumnsPresent(jobs);
    ColumnNamesDistinct();
    cols := SortColumns(jobs, cols, StatusNames);
    ConcatIsFlat(jobs, cols, keys);
    ColumnsArePermutation(jobs);
  }

  /** All ten status columns exist, even empty, and each card sits in the column of its
      status. */
  lemma ColumnsCover(jobs: seq<Card>, c: Card, k: string)
    ensures forall s :: s in StatusNames ==> s in ColumnKeys(jobs)
    ensures c in Column(jobs, k) <==> c in jobs && c.status == k
    ensures c in jobs ==> c.status in ColumnKeys(jobs)
  {
    ColumnKeysShape(jobs);
    WithStatusMembers(jobs, k, c);
    if k in StatusNames {
      SortByRecencySpec(WithStatus(jobs, k));
      assert c in SortByRecency(WithStatus(jobs, k)) <==> c in multiset(SortByRecency(WithStatus(jobs, k)));
    }
  }

  /** Each status column is newest first. */
  lemma StatusColumnsSorted(jobs: seq<Card>, k: string)
    requires k in StatusNames
    ensures NewestFirst(Column(jobs, k))
  {
    SortByRecencySpec(WithStatus(jobs, k));
  }

  lemma TailDistinct(keys: seq<string>)
    requires keys != [] && Distinct(keys)
    ensures Distinct(keys[1..]) && keys[0] !in keys[1..]
  {
    var rest := keys[1..];
    forall i, j | 0 <= i < j < |rest| ensures rest[i] != rest[j] {
      assert rest[i] == keys[i + 1] && rest[j] == keys[j + 1];
    }
    forall j | 0 <= j < |rest| ensures rest[j] != keys[0] {
      assert rest[j] == keys[j + 1];
    }
  }

  lemma WithStatusPush(jobs: seq<Card>, c: Card, k: string)
    ensures WithStatus(jobs + [c], k) == WithStatus(jobs, k) + (if c.status == k then [c] else [])
  {
    assert (jobs + [c])[..|jobs + [c]| - 1] == jobs;
  }

  /** Adding a card to the list adds it to the groups exactly once when its status is one of
      the (distinct) keys. */
  lemma {:induction false} FlatGroupsPush(jobs: seq<Card>, c: Card, keys: seq<string>)
    requires Distinct(keys)
    ensures multiset(FlatGroups(jobs + [c], keys))
            == multiset(FlatGroups(jobs, keys)) + (if c.status in keys then multiset{c} else multiset{})
    decreases |keys|
  {
    if keys != [] {
      TailDistinct(keys);
      FlatGroupsPush(jobs, c, keys[1..]);
      WithStatusPush(jobs, c, keys[0]);
      assert c.status in keys <==> c.status == keys[0] || c.status in keys[1..];
    }
  }

  /** With distinct keys covering every status, the groups hold each card once. */
  lemma {:induction false} GroupingPermutation(jobs: seq<Card>, keys: seq<string>)
    requires Distinct(keys)
    requires forall c :: c in jobs ==> c.status in keys
    ensures multiset(FlatGroups(jobs, keys)) == multiset(jobs)
    decreases |jobs|
  {
    if jobs == [] {
      EmptyGroups(keys);
    } else {
      var init := jobs[..|jobs| - 1];
      var last := jobs[|jobs| - 1];
      assert jobs == init + [last];
      assert last in jobs;
      GroupingPermutation(init, keys);
      FlatGroupsPush(init, last, keys);
    }
  }

  lemma {:induction false} EmptyGroups(keys: seq<string>)
    ensures FlatGroups([], keys) == []
    decreases |keys|
  {
    if keys != [] {
      EmptyGroups(keys[1..]);
    }
  }

  /** Sorting a column does not change which cards it holds. */
  lemma {:induction false} SortedColumnsSameCards(jobs: seq<Card>, keys: seq<string>)
    ensures multiset(FlatColumns(jobs, keys)) == multiset(FlatGroups(jobs, keys))
    decreases |keys|
  {
    if keys != [] {
      SortedColumnsSameCards(jobs, keys[1..]);
      if keys[0] in StatusNames {
        SortByRecencySpec(WithStatus(jobs, keys[0]));
      }
    }
  }

  /** Grouping neither drops nor duplicates a card: the columns in key order hold exactly the
      loaded jobs. */
  lemma ColumnsArePermutation(jobs: seq<Card>)
    ensures multiset(FlatColumns(jobs, ColumnKeys(jobs))) == multiset(jobs)
  {
    var keys := ColumnKeys(jobs);
    ColumnKeysShape(jobs);
    SortedColumnsSameCards(jobs, keys);
    GroupingPermutation(jobs, keys);
  }

  // ---------------------------------------------------------------------------------------
  // changeStatus

  /** `findIndex` on the id: the first position holding it. */
  function FindIndex(list: seq<Card>, id: string): (r: Option<nat>)
    ensures r.Some? ==> r.value < |list| && list[r.value].id == id
                        && forall j :: 0 <= j < r.value ==> list[j].id != id
    ensures r.None? ==> forall j :: 0 <= j < |list| ==> list[j].id != id
  {
    if list == [] then None
    else if list[0].id == id then Some(0)
    else match FindIndex(list[1..], id)
      case Some(i) => Some(i + 1)
      case None => None
  }

  /** The copy with the card at `i` given a new status. */
  function Relabel(list: seq<Card>, i: nat, status: string): (r: seq<Card>)
    requires i < |list|
    ensures |r| == |list| && r[i] == list[i].(status := status)
    ensures forall j :: 0 <= j < |list| && j != i ==> r[j] == list[j]
  {
    list[i := list[i].(status := status)]
  }

  /** The revert: the card now holding the id, if any, gets its old status back. */
  function Revert(list: seq<Card>, id: string, status: string): seq<Card> {
    match FindIndex(list, id)
    case Some(i) => Relabel(list, i, status)
    case None => list
  }

  /** Relabelling keeps every id, so the card is found where it was. */
  lemma FindRelabelled(list: seq<Card>, i: nat, status: string, id: string)
    requires i < |list|
    ensures FindIndex(Relabel(list, i, status), id) == FindIndex(list, id)
  {
    var r := Relabel(list, i, status);
    assert forall j :: 0 <= j < |list| ==> r[j].id == list[j].id;
    FindSameIds(list, r, id);
  }

  lemma {:induction false} FindSameIds(a: seq<Card>, b: seq<Card>, id: string)
    requires |a| == |b| && forall j :: 0 <= j < |a| ==> a[j].id == b[j].id
    ensures FindIndex(a, id) == FindIndex(b, id)
    decreases |a|
  {
    if a != [] {
      FindSameIds(a[1..], b[1..], id);
    }
  }

  /** A failed change with nothing in between restores the list exactly. */
  lemma RevertUndoesChange(list: seq<Card>, id: string, next: string)
    requires FindIndex(list, id).Some?
    ensures var i := FindIndex(list, id).value;
            Revert(Relabel(list, i, next), id, list[i].status) == list
  {
    var i := FindIndex(list, id).value;
    FindRelabelled(list, i, next, id);
    assert Relabel(Relabel(list, i, next), i, list[i].status) == list;
  }

  class Board {
    var jobs: seq<Card>
    var pending: map<string, bool>

    constructor (loaded: seq<Card>)
      ensures jobs == loaded && pending == map[]
    {
      jobs := loaded;
      pending := map[];
    }

    /** The synchronous part of `changeStatus`: nothing when the id is unknown or the status
        is unchanged; otherwise the card is marked pending and relabelled in place. Returns
        the status to revert to. */
    method BeginChange(jobId: string, next: string) returns (prev: Option<string>)
      modifies this
      ensures var idx := FindIndex(old(jobs), jobId);
              if idx.None? || old(jobs)[idx.value].status == next then
                prev.None? && jobs == old(jobs) && pending == old(pending)
              else
                prev == Some(old(jobs)[idx.value].status)
                && jobs == Relabel(old(jobs), idx.value, next)
                && pending == old(pending)[jobId := true]
    {
      var idx := FindIndex(jobs, jobId);
      if idx.None? {
        return None;
      }
      var p := jobs[idx.value];
      if p.status == next {
        return None;
      }
      pending := pending[jobId := true];
      var copy := jobs;
      copy := copy[idx.value := copy[idx.value].(status := next)];
      jobs := copy;
      prev := Some(p.status);
    }

    /** What runs once the `PATCH` has answered: on failure the card that now holds the id
        gets the old status back; in every case the pending flag is cleared. */
    method Settle(jobId: string, prev: string, ok: bool)
      modifies this
      ensures jobs == if ok then old(jobs) else Revert(old(jobs), jobId, prev)
      ensures pending == old(pending)[jobId := false]
    {
      if !ok {
        var copy := jobs;
        var i := FindIndex(copy, jobId);
        if i.Some? {
          copy := copy[i.value := copy[i.value].(status := prev)];
        }
        jobs := copy;
      }
      pending := pending[jobId := false];
    }

    /** `changeStatus` with nothing else happening while the request is out: on success the
        one card is relabelled, on failure the list is as before; the flag ends false. */
    method ChangeStatus(jobId: string, next: string, ok: bool)
      modifies this
      ensures var idx := FindIndex(old(jobs), jobId);
              if idx.None? || old(jobs)[idx.value].status == next then
                jobs == old(jobs) && pending == old(pending)
              else
                jobs == (if ok then Relabel(old(jobs), idx.value, next) else old(jobs))
                && pending == old(pending)[jobId := false]
    {
      var prev := BeginChange(jobId, next);
      if prev.Some? {
        ghost var before := old(jobs);
        Settle(jobId, prev.value, ok);
        if !ok {
          RevertUndoesChange(before, jobId, next);
        }
      }
    }
  }
}
