/** `displayGitHubIssues`: sync the cache, read the cached tasks, sort them, keep those
    the current view shows, render them and decorate them with avatars. The collaborators
    (cache sync, task store, sort, render, avatars) are outside this model: the outcome
    of the sync, the snapshot the store returns and the sort function are parameters,
    and the calls made to them are recorded in order. */
module Display {
  import opened Issues
  import opened ViewFilter
  import ViewToggle

  /** `Options.ordering`; only handed on to the sort. */
  datatype Ordering = Normal | Reverse
  datatype Options = Options(ordering: Ordering)

  /** How the awaited `checkCacheIntegrityAndSyncTasks()` settles. */
  datatype SyncResult = Synced | SyncRejected(reason: string)

  /** How the promise `displayGitHubIssues` returns settles. */
  datatype Settled = Resolved | Rejected(reason: string)

  /** A call to one of the collaborators, with its arguments. */
  datatype Call<Sorting> =
    | CheckCacheIntegrityAndSyncTasks
    | GetTasks
    | SortIssues(issues: seq<Issue>, sorting: Option<Sorting>, options: Options)
    | RenderGitHubIssues(issues: seq<Issue>)
    | ApplyAvatarsToIssues

  /** The calls one refresh made, in order, and how it settled. */
  datatype Run<Sorting> = Run(calls: seq<Call<Sorting>>, settled: Settled)

  /** `Array.prototype.filter`: the elements `p` keeps, in their original order. */
  function Filter<T>(p: T -> bool, s: seq<T>): seq<T> {
    if s == [] then []
    else (if p(s[0]) then [s[0]] else []) + Filter(p, s[1..])
  }

  /** `t` is `s` with some elements left out: `positions` is a strictly increasing
      list of the indices in `s` at which the elements of `t` stand. */
  ghost predicate PicksOut<T>(t: seq<T>, s: seq<T>, positions: seq<nat>) {
    |positions| == |t| &&
    (forall k :: 0 <= k < |t| ==> positions[k] < |s| && t[k] == s[positions[k]]) &&
    (forall k, l :: 0 <= k < l < |t| ==> positions[k] < positions[l])
  }

  /** Every position moved one place to the right. */
  function Shift(positions: seq<nat>): (r: seq<nat>)
    ensures |r| == |positions|
    ensures forall k :: 0 <= k < |r| ==> r[k] == positions[k] + 1
  {
    seq(|positions|, k requires 0 <= k < |positions| => positions[k] + 1)
  }

  lemma ShiftMembers(positions: seq<nat>)
    ensures 0 !in Shift(positions)
    ensures forall i: nat :: i + 1 in Shift(positions) <==> i in positions
  {
  }

  /** Positions picked out of the tail of `s`, shifted, pick the same elements out of `s`;
      putting position 0 in front also picks out the head. */
  lemma PicksOutCons<T>(t: seq<T>, s: seq<T>, positions: seq<nat>)
    requires s != [] && PicksOut(t, s[1..], positions)
    ensures PicksOut(t, s, Shift(positions))
    ensures PicksOut([s[0]] + t, s, [0] + Shift(positions))
  {
  }

  /** The filtered sequence keeps exactly the elements at the positions where the
      predicate holds, and keeps them in order: it is a subsequence of the input
      that drops only what the predicate rejects. */
  lemma {:induction false} FilterPicksOut<T>(p: T -> bool, s: seq<T>) returns (positions: seq<nat>)
    ensures PicksOut(Filter(p, s), s, positions)
    ensures forall i :: 0 <= i < |s| ==> (p(s[i]) <==> i in positions)
  {
    if s == [] {
      positions := [];
    } else {
      var rest := FilterPicksOut(p, s[1..]);
      PicksOutCons(Filter(p, s[1..]), s, rest);
      ShiftMembers(rest);
      if p(s[0]) {
        positions := [0] + Shift(rest);
      } else {
        positions := Shift(rest);
      }
      forall i | 1 <= i < |s| ensures p(s[i]) <==> i in positions {
        assert s[1..][i - 1] == s[i];
        assert i - 1 + 1 == i;
      }
    }
  }

  /** Counted element by element, the filtered sequence holds every copy of each element
      the predicate keeps and nothing else. */
  lemma {:induction false} FilterCounts<T>(p: T -> bool, s: seq<T>)
    ensures forall x :: multiset(Filter(p, s))[x] == if p(x) then multiset(s)[x] else 0
  {
    if s != [] {
      FilterCounts(p, s[1..]);
      assert s == [s[0]] + s[1..];
      assert multiset(s) == multiset{s[0]} + multiset(s[1..]);
    }
  }

  /** Every element of the filtered sequence passes the predicate, and every element of
      the input that passes it is kept. */
  lemma FilterMembers<T>(p: T -> bool, s: seq<T>)
    ensures forall x :: x in Filter(p, s) <==> x in s && p(x)
  {
  }

  /** `displayGitHubIssues(sorting, options)`. `store` is what `taskManager.getTasks()`
      returns once the sync has settled; `sort` stands for `sortIssuesController`. The
      view state is read from `page` when the filter is applied. The refresh `updateView`
      starts passes no arguments, so there `sorting` is `None` and `options` is the
      default `Options(Normal)`. */
  method DisplayGitHubIssues<Sorting>(
    page: ViewToggle.Page, sync: SyncResult, store: seq<Issue>,
    sort: (seq<Issue>, Option<Sorting>, Options) -> seq<Issue>,
    sorting: Option<Sorting>, options: Options)
    returns (run: Run<Sorting>)
    ensures sync.SyncRejected? ==>
      run == Run([CheckCacheIntegrityAndSyncTasks], Rejected(sync.reason))
    ensures sync.Synced? ==>
      run.settled == Resolved &&
      run.calls == [CheckCacheIntegrityAndSyncTasks, GetTasks, SortIssues(store, sorting, options),
                    RenderGitHubIssues(Filter(GetViewFilter(page.currentViewState), sort(store, sorting, options))),
                    ApplyAvatarsToIssues]
    ensures Rendered(run.calls) ==
      if sync.Synced? then Some(Filter(GetViewFilter(page.currentViewState), sort(store, sorting, options)))
      else None
  {
    var calls: seq<Call<Sorting>> := [CheckCacheIntegrityAndSyncTasks];
    if sync.SyncRejected? {
      // the awaited promise rejects, and the rejection leaves this function
      return Run(calls, Rejected(sync.reason));
    }
    var cachedTasks := store;
    calls := calls + [GetTasks];
    var sortedIssues := sort(cachedTasks, sorting, options);
    calls := calls + [SortIssues(cachedTasks, sorting, options)];
    var filteredIssues := Filter(GetViewFilter(page.currentViewState), sortedIssues);
    calls := calls + [RenderGitHubIssues(filteredIssues)];
    calls := calls + [ApplyAvatarsToIssues];
    run := Run(calls, Resolved);
    assert calls[3..] == [RenderGitHubIssues(filteredIssues), ApplyAvatarsToIssues];
    assert Rendered(calls[3..]) == Some(filteredIssues);
    assert calls[2..][1..] == calls[3..] && Rendered(calls[2..]) == Rendered(calls[3..]);
    assert calls[1..][1..] == calls[2..] && Rendered(calls[1..]) == Rendered(calls[2..]);
  }

  /** The list a run handed to `renderGitHubIssues`, if it got that far. */
  function Rendered<Sorting>(calls: seq<Call<Sorting>>): (r: Option<seq<Issue>>)
    ensures r.Some? <==> exists k :: 0 <= k < |calls| && calls[k].RenderGitHubIssues?
  {
    if calls == [] then None
    else if calls[0].RenderGitHubIssues? then Some(calls[0].issues)
    else Rendered(calls[1..])
  }

  /** What a successful refresh renders: the sorted snapshot, in sorted order, without the
      issues the view hides and with every issue it shows. */
  lemma {:induction false} RenderedIsFilteredSortedSnapshot(view: ViewState, sorted: seq<Issue>)
    ensures var rendered := Filter(GetViewFilter(view), sorted);
      (forall issue :: issue in rendered <==> issue in sorted && Accepts(view, issue)) &&
      exists positions ::
        PicksOut(rendered, sorted, positions) &&
        forall i :: 0 <= i < |sorted| ==> (Accepts(view, sorted[i]) <==> i in positions)
  {
    FilterMembers(GetViewFilter(view), sorted);
    var positions := FilterPicksOut(GetViewFilter(view), sorted);
    assert forall i :: 0 <= i < |sorted| ==> (Accepts(view, sorted[i]) <==> i in positions);
    assert PicksOut(Filter(GetViewFilter(view), sorted), sorted, positions);
  }

  /** If the sort only reorders its input (nothing in this file promises it does), a refresh
      renders each issue of the snapshot that the view shows, as often as the snapshot
      holds it, and nothing else. */
  lemma SortPermutationRendersSnapshot(view: ViewState, store: seq<Issue>, sorted: seq<Issue>)
    requires multiset(sorted) == multiset(store)
    ensures forall issue ::
              multiset(Filter(GetViewFilter(view), sorted))[issue] ==
              (if Accepts(view, issue) then multiset(store)[issue] else 0)
  {
    FilterCounts(GetViewFilter(view), sorted);
  }

  /** The scenario of one priced issue, one notification and one issue with an empty
      label array, with a sort that keeps the order: the proposals view shows the last
      two, the notifications view the notification, and the directory view all three. */
  lemma ThreeIssueScenario()
    ensures var priced := GitHubIssue(1, Some([ObjLabel(Some("Price: 100"))]));
      var notice := GitHubIssue(2, Some([ObjLabel(Some("Notification"))]));
      var unlabelled := GitHubIssue(3, Some([]));
      var snapshot := [priced, notice, unlabelled];
      Filter(GetViewFilter(Proposals), snapshot) == [notice, unlabelled] &&
      Filter(GetViewFilter(Notifications), snapshot) == [notice] &&
      Filter(GetViewFilter(Directory), snapshot) == snapshot
  {
    var priced := GitHubIssue(1, Some([ObjLabel(Some("Price: 100"))]));
    var notice := GitHubIssue(2, Some([ObjLabel(Some("Notification"))]));
    var unlabelled := GitHubIssue(3, Some([]));
    var snapshot := [priced, notice, unlabelled];
    ScenarioVerdicts(priced, notice, unlabelled);
    FilterOfThree(GetViewFilter(Proposals), priced, notice, unlabelled);
    FilterOfThree(GetViewFilter(Notifications), priced, notice, unlabelled);
    FilterOfThree(GetViewFilter(Directory), priced, notice, unlabelled);
  }

  /** Which of the three scenario issues each view accepts. */
  lemma ScenarioVerdicts(priced: Issue, notice: Issue, unlabelled: Issue)
    requires priced == GitHubIssue(1, Some([ObjLabel(Some("Price: 100"))]))
    requires notice == GitHubIssue(2, Some([ObjLabel(Some("Notification"))]))
    requires unlabelled == GitHubIssue(3, Some([]))
    ensures !GetViewFilter(Proposals)(priced) && GetViewFilter(Proposals)(notice) && GetViewFilter(Proposals)(unlabelled)
    ensures !GetViewFilter(Notifications)(priced) && GetViewFilter(Notifications)(notice)
    ensures !GetViewFilter(Notifications)(unlabelled)
    ensures GetViewFilter(Directory)(priced) && GetViewFilter(Directory)(notice) && GetViewFilter(Directory)(unlabelled)
  {
    assert IsPriceLabel(ObjLabel(Some("Price: 100"))) by {
      assert "Price: 100"[..|PricePrefix|] == PricePrefix;
    }
    assert !IsPriceLabel(ObjLabel(Some("Notification"))) by {
      assert "Notification"[0] != PricePrefix[0];
    }
    assert !IsNotificationLabel(ObjLabel(Some("Price: 100"))) by {
      assert "Price: 100"[0] != NotificationName[0];
    }
    assert Any([ObjLabel(Some("Price: 100"))], IsPriceLabel);
    assert !Any([ObjLabel(Some("Notification"))], IsPriceLabel);
    assert !Any([ObjLabel(Some("Price: 100"))], IsNotificationLabel);
    assert Any([ObjLabel(Some("Notification"))], IsNotificationLabel);
  }

  lemma FilterOfThree<T>(p: T -> bool, a: T, b: T, c: T)
    ensures Filter(p, [a, b, c]) ==
      (if p(a) then [a] else []) + (if p(b) then [b] else []) + (if p(c) then [c] else [])
  {
    assert Filter(p, [c]) == (if p(c) then [c] else []) + Filter(p, []) by {
      assert [c][1..] == [];
    }
    assert Filter(p, [b, c]) == (if p(b) then [b] else []) + Filter(p, [c]) by {
      assert [b, c][1..] == [c];
    }
    assert Filter(p, [a, b, c]) == (if p(a) then [a] else []) + Filter(p, [b, c]) by {
      assert [a, b, c][1..] == [b, c];
    }
  }
}
