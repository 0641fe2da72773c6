/** The dashboard page's selection of repository names: the per-row toggle,
    the header checkbox's select/deselect-all, and the header's state. */
module Selection {
  import opened Repos

  function NamesOf(rs: seq<Repository>): set<string> {
    set i | 0 <= i < |rs| :: rs[i].name
  }

  /** `toggleRepositorySelection`. */
  function ToggleRepositorySelection(selected: set<string>, name: string): (r: set<string>)
    ensures name in r <==> name !in selected
    ensures forall n :: n != name ==> (n in r <==> n in selected)
  {
    if name in selected then selected - {name} else selected + {name}
  }

  /** Toggling the same row twice restores the selection. */
  lemma ToggleTwiceRestores(selected: set<string>, name: string)
    ensures ToggleRepositorySelection(ToggleRepositorySelection(selected, name), name) == selected
  {
  }

  /** `toggleSelectAll` as written: it compares the SIZE of the selection
      with the number of visible rows, not the sets themselves. */
  function ToggleSelectAll(selected: set<string>, filtered: seq<Repository>): (r: set<string>)
    ensures |selected| == |filtered| ==> r == {}
    ensures |selected| != |filtered| ==> r == NamesOf(filtered)
  {
    if |selected| == |filtered| then {} else NamesOf(filtered)
  }

  /** The header checkbox's `checked` (page line 639), same size test. */
  predicate HeaderChecked(selected: set<string>, filtered: seq<Repository>) {
    |selected| > 0 && |selected| == |filtered|
  }

  /** A selection of one hidden repository, with one different repository
      visible: the header reads as all-selected and the toggle deselects,
      although the visible repository was never selected. */
  lemma ToggleSelectAllSizeMismatch(hidden: Repository, visible: Repository)
    requires hidden.name != visible.name
    ensures HeaderChecked({hidden.name}, [visible])
    ensures visible.name !in {hidden.name}
    ensures ToggleSelectAll({hidden.name}, [visible]) == {}
  {
  }

  /** A subset of a finite set with as many elements is the whole set. */
  lemma SubsetSameSize<T>(a: set<T>, b: set<T>)
    requires a <= b && |a| == |b|
    ensures a == b
  {
    assert a * b == a && a + b == b;
    assert |b - a| == 0;
  }

  /** Every visible repository is selected. */
  predicate AllVisibleSelected(selected: set<string>, filtered: seq<Repository>) {
    |filtered| > 0 && NamesOf(filtered) <= selected
  }

  /** The toggle as evidently intended: deselect when every visible row is
      selected, otherwise select exactly the visible rows. */
  function ToggleSelectAllBySet(selected: set<string>, filtered: seq<Repository>): (r: set<string>)
    ensures AllVisibleSelected(selected, filtered) ==> r == {}
    ensures !AllVisibleSelected(selected, filtered) ==> r == NamesOf(filtered)
  {
    if AllVisibleSelected(selected, filtered) then {} else NamesOf(filtered)
  }

  /** Unless every visible row was already selected, the corrected toggle
      leaves every visible row selected; pressing it again clears the
      selection. */
  lemma ToggleSelectAllBySetAlternates(selected: set<string>, filtered: seq<Repository>)
    requires |filtered| > 0
    requires !AllVisibleSelected(selected, filtered)
    ensures AllVisibleSelected(ToggleSelectAllBySet(selected, filtered), filtered)
    ensures ToggleSelectAllBySet(ToggleSelectAllBySet(selected, filtered), filtered) == {}
  {
  }

  /** While the selection holds only visible rows and no two visible rows
      share a name, counting is enough: the size test and the set test
      agree, so the written toggle behaves as intended. */
  lemma {:induction false} ToggleSelectAllAgreesOnVisibleSelection(selected: set<string>, filtered: seq<Repository>)
    requires selected <= NamesOf(filtered)
    requires |NamesOf(filtered)| == |filtered|
    ensures ToggleSelectAll(selected, filtered) == ToggleSelectAllBySet(selected, filtered)
  {
    if |selected| == |filtered| {
      SubsetSameSize(selected, NamesOf(filtered));
      if |filtered| == 0 {
        assert NamesOf(filtered) == {};
      }
    } else {
      SubsetBothWays(selected, NamesOf(filtered));
    }
  }

  lemma SubsetBothWays<T>(a: set<T>, b: set<T>)
    ensures a <= b && b <= a ==> a == b
  {
  }

  /** Whenever the selection is as large as the visible list but misses a
      visible row, the written toggle clears everything, where the intended
      one selects every visible row. */
  lemma ToggleSelectAllDisagreesOnMissedRow(selected: set<string>, filtered: seq<Repository>, i: int)
    requires |selected| == |filtered| > 0
    requires 0 <= i < |filtered| && filtered[i].name !in selected
    ensures ToggleSelectAll(selected, filtered) == {}
    ensures ToggleSelectAllBySet(selected, filtered) == NamesOf(filtered)
    ensures filtered[i].name in ToggleSelectAllBySet(selected, filtered)
  {
    assert filtered[i].name in NamesOf(filtered);
  }
}
