/** `getViewFilter`: the predicate that decides which cached issues a view shows. */
module ViewFilter {
  import opened Issues
  import opened JsStrings

  /** A view state is whatever string the view code assigned; the TypeScript cast
      `as ViewState` checks nothing, so the three known values are constants here. */
  type ViewState = string

  const Directory: ViewState := "directory"
  const Proposals: ViewState := "proposals"
  const Notifications: ViewState := "notifications"

  const PricePrefix: string := "Price: "
  const NotificationName: string := "Notification"

  /** `xs.some(p)`: scans from the front and stops at the first hit. */
  function Any<T>(xs: seq<T>, p: T -> bool): bool {
    if xs == [] then false
    else if p(xs[0]) then true
    else Any(xs[1..], p)
  }

  lemma {:induction false} AnyIff<T>(xs: seq<T>, p: T -> bool)
    ensures Any(xs, p) <==> exists i :: 0 <= i < |xs| && p(xs[i])
  {
    if xs != [] {
      AnyIff(xs[1..], p);
      assert forall i :: 1 <= i < |xs| ==> xs[1..][i - 1] == xs[i];
      if !p(xs[0]) && (exists i :: 0 <= i < |xs| && p(xs[i])) {
        var i :| 0 <= i < |xs| && p(xs[i]);
        assert xs[1..][i - 1] == xs[i];
      }
    }
  }

  lemma {:induction false} AnyAppend<T>(xs: seq<T>, ys: seq<T>, p: T -> bool)
    ensures Any(xs + ys, p) == (Any(xs, p) || Any(ys, p))
  {
    if xs == [] {
      assert xs + ys == ys;
    } else {
      assert (xs + ys)[0] == xs[0];
      assert (xs + ys)[1..] == xs[1..] + ys;
      AnyAppend(xs[1..], ys, p);
    }
  }

  /** The callback of the first `some`: a string label never has a price; an object
      label has one when its name is present and starts with "Price: ". */
  predicate IsPriceLabel(l: Label) {
    match l
    case StrLabel(_) => false
    case ObjLabel(name) => name.Some? && StartsWith(name.value, PricePrefix)
  }

  /** The callback of the second `some`: an object label named exactly "Notification". */
  predicate IsNotificationLabel(l: Label) {
    l.ObjLabel? && l.name == Some(NotificationName)
  }

  /** The body of the closure `getViewFilter` returns. A missing issue or a missing
      `labels` field is rejected before the switch; an empty label array is not
      (an empty array is truthy in JavaScript). */
  predicate Accepts(view: ViewState, issue: Issue) {
    match issue
    case Absent => false
    case GitHubIssue(_, None) => false
    case GitHubIssue(_, Some(labels)) =>
      var hasPriceLabel := Any(labels, IsPriceLabel);
      if view == Directory then true
      else if view == Proposals then !hasPriceLabel
      else if view == Notifications then Any(labels, IsNotificationLabel)
      else false
  }

  /** `getViewFilter(viewState)`: the closure rejects a missing issue or a missing
      `labels` field under every view; otherwise the directory view accepts, the
      proposals view accepts when no object label's name starts with "Price: ", the
      notifications view accepts when some object label is named "Notification", and
      any other view rejects. */
  function GetViewFilter(view: ViewState): (filter: Issue -> bool)
    ensures forall issue: Issue :: issue.Absent? || issue.labels.None? ==> !filter(issue)
    ensures view == Directory ==>
      forall issue: Issue :: filter(issue) <==> issue.GitHubIssue? && issue.labels.Some?
    ensures view == Proposals ==>
      forall issue: Issue :: filter(issue) <==>
        issue.GitHubIssue? && issue.labels.Some? &&
        forall i :: 0 <= i < |issue.labels.value| ==>
          match issue.labels.value[i]
          case StrLabel(_) => true
          case ObjLabel(name) => name.None? || !StartsWith(name.value, PricePrefix)
    ensures view == Notifications ==>
      forall issue: Issue :: filter(issue) <==>
        issue.GitHubIssue? && issue.labels.Some? &&
        exists i :: 0 <= i < |issue.labels.value| &&
          issue.labels.value[i] == ObjLabel(Some(NotificationName))
    ensures view != Directory && view != Proposals && view != Notifications ==>
      forall issue: Issue :: !filter(issue)
  {
    assert forall issue: Issue :: Accepts(Proposals, issue) <==>
        issue.GitHubIssue? && issue.labels.Some? &&
        forall i :: 0 <= i < |issue.labels.value| ==>
          match issue.labels.value[i]
          case StrLabel(_) => true
          case ObjLabel(name) => name.None? || !StartsWith(name.value, PricePrefix)
    by {
      forall issue: Issue {
        ProposalsIff(issue);
      }
    }
    assert forall issue: Issue :: Accepts(Notifications, issue) <==>
        issue.GitHubIssue? && issue.labels.Some? &&
        exists i :: 0 <= i < |issue.labels.value| &&
          issue.labels.value[i] == ObjLabel(Some(NotificationName))
    by {
      forall issue: Issue {
        NotificationsIff(issue);
      }
    }
    issue => Accepts(view, issue)
  }

  /** Under every view, a missing issue and an issue without a `labels` field are rejected,
      while an issue whose label array is empty is shown by the directory and proposals
      views and hidden by the notifications view. */
  lemma LabelsGuard(view: ViewState, number: nat)
    ensures !Accepts(view, Absent) && !Accepts(view, GitHubIssue(number, None))
    ensures Accepts(view, GitHubIssue(number, Some([]))) <==> view == Directory || view == Proposals
  {
  }

  /** The directory view shows every issue whose `labels` field is present, whatever it holds. */
  lemma DirectoryShowsAllLabelled(issue: Issue)
    ensures Accepts(Directory, issue) <==> issue.GitHubIssue? && issue.labels.Some?
  {
  }

  /** The proposals view shows an issue iff no object label has a name beginning with
      "Price: ". */
  lemma ProposalsIff(issue: Issue)
    ensures Accepts(Proposals, issue) <==>
      issue.GitHubIssue? && issue.labels.Some? &&
      forall i :: 0 <= i < |issue.labels.value| ==>
        match issue.labels.value[i]
        case StrLabel(_) => true
        case ObjLabel(name) => name.None? || !StartsWith(name.value, PricePrefix)
  {
    if issue.GitHubIssue? && issue.labels.Some? {
      AnyIff(issue.labels.value, IsPriceLabel);
    }
  }

  /** The notifications view shows an issue iff some object label is named exactly
      "Notification"; a string label "Notification" does not count. */
  lemma NotificationsIff(issue: Issue)
    ensures Accepts(Notifications, issue) <==>
      issue.GitHubIssue? && issue.labels.Some? &&
      exists i :: 0 <= i < |issue.labels.value| &&
        issue.labels.value[i] == ObjLabel(Some(NotificationName))
  {
    if issue.GitHubIssue? && issue.labels.Some? {
      AnyIff(issue.labels.value, IsNotificationLabel);
    }
  }

  /** A view state other than the three known ones rejects every issue. */
  lemma UnknownViewRejects(view: ViewState, issue: Issue)
    requires view != Directory && view != Proposals && view != Notifications
    ensures !Accepts(view, issue)
  {
  }

  /** String labels and object labels without a name never change what any view shows. */
  lemma {:induction false} NamelessLabelsIgnored(view: ViewState, number: nat, labels: seq<Label>, extra: seq<Label>)
    requires forall i :: 0 <= i < |extra| ==> extra[i].StrLabel? || extra[i].name.None?
    ensures Accepts(view, GitHubIssue(number, Some(labels + extra))) == Accepts(view, GitHubIssue(number, Some(labels)))
  {
    AnyAppend(labels, extra, IsPriceLabel);
    AnyAppend(labels, extra, IsNotificationLabel);
    AnyIff(extra, IsPriceLabel);
    AnyIff(extra, IsNotificationLabel);
  }
}
