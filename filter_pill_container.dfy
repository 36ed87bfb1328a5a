/**
 * FilterPillContainer: a collapsible section of filter pills. Selecting a
 * pill toggles its value in the selection (several values in multiple mode,
 * at most one otherwise) and reports the new selection to the optional
 * callback; the header button expands and collapses the option list.
 */
module FilterPillContainer {
  import opened Wrappers

  datatype FilterOption = FilterOption(text: string, value: string)

  /** No value occurs twice. */
  predicate NoDup(s: seq<string>)
  {
    forall i, j :: 0 <= i < j < |s| ==> s[i] != s[j]
  }

  /** selectedValues.filter(v => v !== value): the other values, in their order. */
  function Remove(s: seq<string>, value: string): (r: seq<string>)
    ensures |r| <= |s|
    ensures forall v :: v in r <==> v in s && v != value
    decreases |s|
  {
    if s == [] then []
    else if s[0] == value then Remove(s[1..], value)
    else [s[0]] + Remove(s[1..], value)
  }

  /**
   * The selection after a pill with this value is clicked: in multiple mode a
   * present value is removed and an absent one appended; in single mode a
   * present value empties the selection and an absent one becomes the only one.
   */
  function NextSelection(selected: seq<string>, value: string, multiple: bool): (r: seq<string>)
    ensures value in r <==> value !in selected
    ensures multiple ==> forall v :: v != value ==> (v in r <==> v in selected)
    ensures multiple && value !in selected ==> r == selected + [value]
    ensures multiple && value in selected ==> r == Remove(selected, value)
    ensures !multiple ==> |r| <= 1 && forall v :: v in r ==> v == value
  {
    if multiple then
      if value in selected then Remove(selected, value) else selected + [value]
    else
      if value in selected then [] else [value]
  }

  // ---- properties of the selection rule -------------------------------------------

  lemma {:induction false} RemoveAbsent(s: seq<string>, value: string)
    requires value !in s
    ensures Remove(s, value) == s
    decreases |s|
  {
    if s != [] {
      RemoveAbsent(s[1..], value);
    }
  }

  /** Removal works piecewise, so the values that stay keep their relative order. */
  lemma {:induction false} RemoveAppend(a: seq<string>, b: seq<string>, value: string)
    ensures Remove(a + b, value) == Remove(a, value) + Remove(b, value)
    decreases |a|
  {
    if a == [] {
      assert a + b == b;
    } else {
      assert (a + b)[1..] == a[1..] + b;
      RemoveAppend(a[1..], b, value);
    }
  }

  /** Removal keeps a duplicate-free selection duplicate-free. */
  lemma {:induction false} RemoveNoDup(s: seq<string>, value: string)
    requires NoDup(s)
    ensures NoDup(Remove(s, value))
    decreases |s|
  {
    if s != [] {
      assert NoDup(s[1..]) by {
        forall i, j | 0 <= i < j < |s[1..]|
          ensures s[1..][i] != s[1..][j]
        {
          assert s[1..][i] == s[i + 1] && s[1..][j] == s[j + 1];
        }
      }
      RemoveNoDup(s[1..], value);
      if s[0] != value {
        var rest := Remove(s[1..], value);
        assert s[0] !in s[1..] by {
          forall k | 0 <= k < |s[1..]|
            ensures s[1..][k] != s[0]
          {
            assert s[1..][k] == s[k + 1];
          }
        }
        assert s[0] !in rest;
        var r := [s[0]] + rest;
        forall i, j | 0 <= i < j < |r|
          ensures r[i] != r[j]
        {
          if i == 0 {
            assert r[j] == rest[j - 1];
          } else {
            assert r[i] == rest[i - 1] && r[j] == rest[j - 1];
          }
        }
      }
    }
  }

  /** In multiple mode, clicking the same absent value twice restores the selection. */
  lemma ToggleTwice(selected: seq<string>, value: string)
    requires value !in selected
    ensures NextSelection(NextSelection(selected, value, true), value, true) == selected
  {
    RemoveAppend(selected, [value], value);
    RemoveAbsent(selected, value);
    assert Remove([value], value) == [];
  }

  /** Every click keeps the selection duplicate-free. */
  lemma NextNoDup(selected: seq<string>, value: string, multiple: bool)
    requires NoDup(selected)
    ensures NoDup(NextSelection(selected, value, multiple))
  {
    if multiple && value in selected {
      RemoveNoDup(selected, value);
    }
  }

  /** The component's state: its props and its two pieces of React state. */
  class Container {
    const options: seq<FilterOption>
    const allowMultiple: bool
    var selectedValues: seq<string>
    var isExpanded: bool

    /** The selection never repeats a value, and holds at most one value in single mode. */
    predicate Valid()
      reads this
    {
      NoDup(selectedValues) && (!allowMultiple ==> |selectedValues| <= 1)
    }

    /** Mounting: nothing selected; expanded unless defaultExpanded is false. */
    constructor (options: seq<FilterOption>, allowMultiple: bool, defaultExpanded: Option<bool>)
      ensures this.options == options && this.allowMultiple == allowMultiple
      ensures selectedValues == []
      ensures isExpanded == defaultExpanded.GetOr(true)
      ensures Valid()
    {
      this.options := options;
      this.allowMultiple := allowMultiple;
      selectedValues := [];
      isExpanded := defaultExpanded.GetOr(true);
    }

    /**
     * handlePillSelect: store the next selection and hand exactly that selection
     * to onSelectionChange when one is given (none is notified otherwise).
     */
    method HandlePillSelect(value: string, hasCallback: bool) returns (notified: Option<seq<string>>)
      requires Valid()
      modifies this
      ensures Valid()
      ensures selectedValues == NextSelection(old(selectedValues), value, allowMultiple)
      ensures isExpanded == old(isExpanded)
      ensures notified == (if hasCallback then Some(selectedValues) else None)
    {
      NextNoDup(selectedValues, value, allowMultiple);
      var next := NextSelection(selectedValues, value, allowMultiple);
      selectedValues := next;
      if hasCallback {
        notified := Some(next);
      } else {
        notified := None;
      }
    }

    /** toggleExpanded flips the section open or closed and leaves the selection alone. */
    method ToggleExpanded()
      modifies this
      ensures isExpanded == !old(isExpanded)
      ensures selectedValues == old(selectedValues)
    {
      isExpanded := !isExpanded;
    }

    /** The pills on screen: every option while expanded, none while collapsed. */
    function VisibleOptions(): (r: seq<(FilterOption, bool)>)
      reads this
      ensures isExpanded ==> |r| == |options|
      ensures !isExpanded ==> r == []
      ensures forall k :: 0 <= k < |r| ==> r[k].0 == options[k] && (r[k].1 <==> options[k].value in selectedValues)
    {
      var opts := options;
      var selected := selectedValues;
      if isExpanded then seq(|opts|, k requires 0 <= k < |opts| => (opts[k], opts[k].value in selected))
      else []
    }
  }
}
