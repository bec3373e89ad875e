# work.ubq.fi issue list: view filter, view toggle and refresh pipeline

A Dafny model of the decision logic behind the issue list of work.ubq.fi
(`src/home/fetch-github/fetch-and-display-previews.ts`). It has three parts:

- **View filter** (`view_filter.dfy`, module `ViewFilter`). This models `getViewFilter`:
  for a view state (`directory`, `proposals`, `notifications` or any other string), it
  decides whether a cached GitHub issue is shown. Labels are bare strings or objects whose
  `name` may be missing (`issues.dfy`). `Array.prototype.some` is modelled as the recursive `Any`,
  and `startsWith` as `JsStrings.StartsWith`.
- **View toggle** (`view_toggle.dfy`, module `ViewToggle`). The class `Page` holds the
  module-level `currentViewState`, the three radios (an `array<bool>` in the order
  directory, proposals, notifications), the toggle text, and a count of the refreshes the
  toggle has started. `UpdateView` and `CycleRadioButtons` model `updateView` and
  `cycleRadioButtons`. The object invariant `Valid()` says that whenever a radio is
  checked, the view state and the text are the ones that radio selects. The JavaScript
  string built-ins used to derive them (`replace`, `charAt(0).toUpperCase()`, `slice`)
  are in `js_strings.dfy`.
- **Refresh pipeline** (`display.dfy`, module `Display`). `DisplayGitHubIssues` runs
  sync, read, sort, filter, render and avatars. The collaborators are opaque:
  - the sync outcome is a parameter;
  - the snapshot `taskManager.getTasks()` returns is a parameter;
  - the sort is an arbitrary function parameter.

  The method returns the ordered list of collaborator calls and how the returned promise
  settles. The list passed to render is `Filter(GetViewFilter(currentViewState), sorted)`.
  Lemmas show that this is the subsequence of the sorted snapshot made of exactly the
  issues the view accepts.

Assumptions:
- The three radios form one browser radio group. So at most one is checked, and setting
  `checked = true` on one unchecks the others. `cycleRadioButtons` relies on this
  (`CheckRadio`, and the `AtMostOneChecked` precondition of the constructor).
- A refresh is one atomic call. The view state is read from the `Page` when the filter
  is applied.

Notes on the code:
- The guard `!issue?.labels` rejects only a missing issue or a missing `labels` field.
  An empty label array is truthy in JavaScript, so it passes the guard. Such an issue is
  shown by the directory and proposals views and hidden by the notifications view
  (`LabelsGuard`, `ThreeIssueScenario`).
- So for a snapshot of a priced issue, a notification and an issue with an empty label
  array, the proposals view shows the last two and the directory view shows all three.
- The sort is not assumed to be a permutation, because nothing in this file promises it.
  `SortPermutationRendersSnapshot` states what follows if it is one.

## Model

| member | source | states |
|---|---|---|
| `ViewFilter.GetViewFilter` | src/home/fetch-github/fetch-and-display-previews.ts:60-81 | the returned closure rejects a missing issue or missing `labels` under every view; directory accepts iff labels are present; proposals accepts iff no object label's name starts with "Price: "; notifications accepts iff some object label is named exactly "Notification"; any other view rejects everything |
| `ViewFilter.AnyIff` | src/home/fetch-github/fetch-and-display-previews.ts:64-67 | `some` over labels is true iff some position holds a label the callback accepts |
| `ViewFilter.LabelsGuard` | src/home/fetch-github/fetch-and-display-previews.ts:62-76 | under every view a missing issue or a missing `labels` field is rejected; an empty label array is accepted exactly by the directory and proposals views |
| `ViewFilter.DirectoryShowsAllLabelled` | src/home/fetch-github/fetch-and-display-previews.ts:62-71 | the directory view accepts an issue iff the issue and its `labels` field are present, whatever the labels hold |
| `ViewFilter.ProposalsIff` | src/home/fetch-github/fetch-and-display-previews.ts:62-73 | the proposals view accepts iff labels are present and no object label has a name starting with "Price: "; string labels and nameless labels never count |
| `ViewFilter.NotificationsIff` | src/home/fetch-github/fetch-and-display-previews.ts:62-76 | the notifications view accepts iff labels are present and some label is an object named exactly "Notification" |
| `ViewFilter.UnknownViewRejects` | src/home/fetch-github/fetch-and-display-previews.ts:77-78 | any view state other than the three known ones rejects every issue |
| `ViewFilter.NamelessLabelsIgnored` | src/home/fetch-github/fetch-and-display-previews.ts:64-76 | adding string labels or nameless object labels to an issue never changes whether any view accepts it |
| `JsStrings.IndexOf` | src/home/fetch-github/fetch-and-display-previews.ts:38 | the position `replace` acts on is the first occurrence of the pattern; no occurrence means none anywhere |
| `JsStrings.ReplacePrefix` | src/home/fetch-github/fetch-and-display-previews.ts:38 | replacing a leading pattern by "" gives back exactly the rest of the string |
| `ViewToggle.FindChecked` | src/home/fetch-github/fetch-and-display-previews.ts:46 | `findIndex` returns -1 iff no radio is checked, and otherwise the first checked radio |
| `ViewToggle.NextIndex` | src/home/fetch-github/fetch-and-display-previews.ts:47 | `(currentIndex + 1) % 3` is always a valid radio index, -1 included |
| `ViewToggle.RadioIdSuffix` | src/home/fetch-github/fetch-and-display-previews.ts:34-38 | stripping `radio-` from each radio id gives that radio's view state, and capitalising it gives "Directory", "Proposals" or "Notifications" |
| `ViewToggle.CapitalizeView` | src/home/fetch-github/fetch-and-display-previews.ts:34-35 | the toggle text built from each view state is that state with its first letter in upper case |
| `ViewToggle.CycleChecksNext` | src/home/fetch-github/fetch-and-display-previews.ts:45-48 | after a cycle exactly one radio is checked: the one after the first checked radio, or the directory radio when none was checked |
| `ViewToggle.ThreeCyclesRestore` | src/home/fetch-github/fetch-and-display-previews.ts:45-50 | starting from exactly one checked radio, three cycles come back to the same selection |
| `ViewToggle.Page.constructor` | src/home/fetch-github/fetch-and-display-previews.ts:14-58 | page load: the view state starts at "directory" and `updateView()` runs once, so the view state, the text and one refresh follow the radio checked in the markup, if any |
| `ViewToggle.Page.UpdateView` | src/home/fetch-github/fetch-and-display-previews.ts:30-43 | with no radio checked nothing changes and no refresh starts; otherwise the first checked radio sets the view state and the text, exactly one refresh starts, and the invariant `Valid()` holds |
| `ViewToggle.Page.CheckRadio` | src/home/fetch-github/fetch-and-display-previews.ts:48 | checking one radio of the group leaves exactly that radio checked |
| `ViewToggle.Page.CycleRadioButtons` | src/home/fetch-github/fetch-and-display-previews.ts:45-50 | the radios become `Cycled` of the old radios; the view state and the text become those of the next view in the order directory, proposals, notifications; one refresh starts |
| `Display.FilterPicksOut` | src/home/fetch-github/fetch-and-display-previews.ts:88 | `filter` returns a subsequence of its input, in order, made of exactly the elements at the positions where the predicate holds |
| `Display.FilterCounts` | src/home/fetch-github/fetch-and-display-previews.ts:88 | `filter` keeps every copy of each accepted element and no rejected element |
| `Display.FilterMembers` | src/home/fetch-github/fetch-and-display-previews.ts:88 | an element is in the filtered list iff it is in the input and the predicate accepts it |
| `Display.DisplayGitHubIssues` | src/home/fetch-github/fetch-and-display-previews.ts:84-91 | a failed sync rejects after the sync call alone, so nothing is sorted, rendered or decorated; otherwise the calls are sync, read, sort, render of the filtered sorted snapshot for the current view, then avatars, and the promise resolves |
| `Display.RenderedIsFilteredSortedSnapshot` | src/home/fetch-github/fetch-and-display-previews.ts:87-89 | the rendered list is the sorted list with exactly the positions the current view accepts kept, duplicates included, in sorted order; an issue is rendered iff it is sorted and accepted |
| `Display.SortPermutationRendersSnapshot` | src/home/fetch-github/fetch-and-display-previews.ts:86-89 | if the sort only reorders the snapshot, the rendered list holds each accepted snapshot issue as often as the snapshot does, and nothing else |
| `Display.ThreeIssueScenario` | src/home/fetch-github/fetch-and-display-previews.ts:62-88 | for a priced issue, a notification and an issue with an empty label array: proposals shows the last two, notifications shows the notification, directory shows all three |

## Left out

- DOM lookup of the radios, the label and the text (lines 17-24), and the `console.error` existence check (lines 26-28). The model assumes all elements exist.
- The click listener on the toggle label, including `preventDefault` (lines 52-55). Its effect is one `cycleRadioButtons()` call, which is `Page.CycleRadioButtons`.
- A user checking a radio directly. This file installs no handler for that, so the model has no such operation.
- The fire-and-forget `void displayGitHubIssues()` in `updateView`, and overlapping refreshes that interleave. `Page.refreshes` counts the refreshes started. `Display.DisplayGitHubIssues` models one refresh as an atomic call that reads the view state when it filters.
- The internals of `checkCacheIntegrityAndSyncTasks`, `taskManager.getTasks`, `sortIssuesController`, `renderGitHubIssues` and `applyAvatarsToIssues`. Their code is not part of this model. They are modelled as parameters or as recorded calls.
- Exceptions thrown by the sort, the render or the avatar step. Only a rejected cache sync is modelled as an error path.
- `Options.ordering` and `sorting`. They are only passed on to the sort, and the model records them in the sort call.
- `JsStrings.ToUpper` maps only the ASCII letters a-z. Only the lower-case ASCII view names reach it here, so the full Unicode mapping of `toUpperCase` is not modelled.
- Label names whose runtime value is not a string. The model takes the declared type, a string or missing.
- Issue fields other than the labels. An issue number is kept only to tell issues apart.
