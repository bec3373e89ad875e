/** `updateView` and `cycleRadioButtons`: the module-level view state, the three view
    radios and the toggle text, kept in step with one another. */
module ViewToggle {
  import opened JsStrings
  import opened ViewFilter

  /** The element ids of the radios, in the order the page lists them. */
  const RadioIds: seq<string> := ["radio-directory", "radio-proposals", "radio-notifications"]
  /** The view state each radio selects, once `radio-` is stripped from its id. */
  const Views: seq<ViewState> := [Directory, Proposals, Notifications]
  /** The toggle text each radio shows: its view state with the first letter capitalised. */
  const Titles: seq<string> := ["Directory", "Proposals", "Notifications"]

  /** `radioButtons.findIndex(radio => radio.checked)`: the first checked radio, or -1. */
  function FindChecked(checked: seq<bool>): (i: int)
    ensures -1 <= i < |checked|
    ensures i == -1 <==> forall k :: 0 <= k < |checked| ==> !checked[k]
    ensures 0 <= i ==> checked[i] && forall k :: 0 <= k < i ==> !checked[k]
  {
    if checked == [] then -1
    else if checked[0] then 0
    else
      var j := FindChecked(checked[1..]);
      if j == -1 then -1 else j + 1
  }

  /** The radios form one group, so the browser never shows two of them checked. */
  predicate AtMostOneChecked(checked: seq<bool>) {
    forall j, k :: 0 <= j < k < |checked| && checked[j] ==> !checked[k]
  }

  predicate ExactlyOneChecked(checked: seq<bool>) {
    AtMostOneChecked(checked) && exists k :: 0 <= k < |checked| && checked[k]
  }

  /** The radio states after `radioButtons[k].checked = true` in a radio group. */
  function OnlyChecked(k: nat): (r: seq<bool>)
    ensures |r| == 3
  {
    seq(3, j => j == k)
  }

  /** `(currentIndex + 1) % radioButtons.length` for three radios. The dividend is
      never negative, so JavaScript's `%` and Dafny's agree here. */
  function NextIndex(current: int): (next: nat)
    requires -1 <= current < 3
    ensures next < 3
  {
    (current + 1) % 3
  }

  /** The radio states `cycleRadioButtons` leaves behind. */
  function Cycled(checked: seq<bool>): (r: seq<bool>)
    requires |checked| == 3
  {
    OnlyChecked(NextIndex(FindChecked(checked)))
  }

  /** Stripping `radio-` from each id gives that radio's view state, and capitalising
      the view state gives its toggle text. */
  lemma RadioIdSuffix(k: nat)
    requires k < 3
    ensures ReplaceFirst(RadioIds[k], "radio-", "") == Views[k]
    ensures Capitalize(Views[k]) == Titles[k]
  {
    assert RadioIds[k] == "radio-" + Views[k];
    ReplacePrefix("radio-", Views[k]);
    CapitalizeView(k);
  }

  lemma CapitalizeView(k: nat)
    requires k < 3
    ensures Capitalize(Views[k]) == Titles[k]
  {
    var v := Views[k];
    if k == 0 {
      assert v[0] == 'd' && ToUpper('d') == 'D';
      assert Titles[0] == ['D'] + v[1..];
    } else if k == 1 {
      assert v[0] == 'p' && ToUpper('p') == 'P';
      assert Titles[1] == ['P'] + v[1..];
    } else {
      assert v[0] == 'n' && ToUpper('n') == 'N';
      assert Titles[2] == ['N'] + v[1..];
    }
  }

  lemma FindCheckedOnly(k: nat)
    requires k < 3
    ensures FindChecked(OnlyChecked(k)) == k
  {
    var i := FindChecked(OnlyChecked(k));
    assert OnlyChecked(k)[k];
  }

  /** After a cycle exactly one radio is checked: the one after the first checked radio,
      or the directory radio when none was checked. */
  lemma CycleChecksNext(checked: seq<bool>)
    requires |checked| == 3
    ensures ExactlyOneChecked(Cycled(checked))
    ensures FindChecked(Cycled(checked)) == NextIndex(FindChecked(checked))
    ensures (forall k :: 0 <= k < 3 ==> !checked[k]) ==> Cycled(checked) == [true, false, false]
  {
    var next := NextIndex(FindChecked(checked));
    FindCheckedOnly(next);
    assert Cycled(checked)[next];
  }

  /** With exactly one radio checked, three cycles come back to the same selection. */
  lemma ThreeCyclesRestore(checked: seq<bool>)
    requires |checked| == 3 && ExactlyOneChecked(checked)
    ensures Cycled(Cycled(Cycled(checked))) == checked
  {
    var k := FindChecked(checked);
    CycleChecksNext(checked);
    CycleChecksNext(Cycled(checked));
    CycleChecksNext(Cycled(Cycled(checked)));
    assert FindChecked(Cycled(Cycled(checked))) == NextIndex(NextIndex(k));
    assert NextIndex(NextIndex(NextIndex(k))) == k;
    forall j | 0 <= j < 3 ensures OnlyChecked(k)[j] == checked[j] {
    }
  }

  /** The page's view toggle: the module-level `currentViewState`, the three radios and
      the text of the toggle. `refreshes` counts the `displayGitHubIssues()` calls the
      view code has started; they are not awaited. */
  class Page {
    /** `radioButtons[k].checked`, in the order of `RadioIds`. */
    const radios: array<bool>
    var currentViewState: ViewState
    /** `viewToggleText.textContent`. */
    var toggleText: string
    var refreshes: nat

    /** The radios are the three of one group and the view state is a known view. */
    ghost predicate WellFormed()
      reads this, radios
    {
      radios.Length == 3 && AtMostOneChecked(radios[..]) && currentViewState in Views
    }

    /** When a radio is checked, the view state and the toggle text are the ones it selects. */
    ghost predicate Valid()
      reads this, radios
    {
      WellFormed() &&
      var i := FindChecked(radios[..]);
      0 <= i ==> currentViewState == Views[i] && toggleText == Titles[i]
    }

    /** Loading the page: the view state starts at "directory", the radios and the text
        are what the page's markup holds, and `updateView()` runs once. */
    constructor (initialChecked: seq<bool>, initialText: string)
      requires |initialChecked| == 3 && AtMostOneChecked(initialChecked)
      ensures Valid() && fresh(radios) && radios[..] == initialChecked
      ensures var i := FindChecked(initialChecked);
        if i == -1 then
          currentViewState == Directory && toggleText == initialText && refreshes == 0
        else
          currentViewState == Views[i] && toggleText == Titles[i] && refreshes == 1
    {
      var a := new bool[3];
      a[0], a[1], a[2] := initialChecked[0], initialChecked[1], initialChecked[2];
      radios := a;
      currentViewState := Directory;
      toggleText := initialText;
      refreshes := 0;
      new;
      assert radios[..] == initialChecked;
      UpdateView();
    }

    /** `updateView()`: with no radio checked nothing changes; otherwise the first checked
        radio sets the text and the view state and one refresh is started. */
    method UpdateView()
      requires WellFormed()
      modifies this
      ensures Valid()
      ensures var i := FindChecked(radios[..]);
        if i == -1 then
          currentViewState == old(currentViewState) && toggleText == old(toggleText) &&
          refreshes == old(refreshes)
        else
          currentViewState == Views[i] && toggleText == Titles[i] && refreshes == old(refreshes) + 1
    {
      var i := FindChecked(radios[..]);
      if i != -1 {
        var suffix := ReplaceFirst(RadioIds[i], "radio-", "");
        RadioIdSuffix(i);
        toggleText := Capitalize(suffix);
        currentViewState := suffix;
        refreshes := refreshes + 1;
      }
    }

    /** Checking one radio of the group unchecks the others. */
    method CheckRadio(k: nat)
      requires radios.Length == 3 && k < 3
      modifies radios
      ensures radios[..] == OnlyChecked(k)
    {
      forall j | 0 <= j < radios.Length {
        radios[j] := j == k;
      }
    }

    /** `cycleRadioButtons()`: checks the radio after the first checked one (the first
        radio when none is checked), then runs `updateView()`. */
    method CycleRadioButtons()
      requires WellFormed()
      modifies this, radios
      ensures Valid()
      ensures radios[..] == Cycled(old(radios[..]))
      ensures var next := NextIndex(FindChecked(old(radios[..])));
        currentViewState == Views[next] && toggleText == Titles[next] &&
        refreshes == old(refreshes) + 1
    {
      var current := FindChecked(radios[..]);
      var next := (current + 1) % radios.Length;
      CheckRadio(next);
      FindCheckedOnly(next);
      UpdateView();
    }
  }
}
