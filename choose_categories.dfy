/** The first-run modal where a new user picks an occupation and categories
    (todopalm-web/src/components/Categories/ChooseCategoriesModal.tsx), with the
    icon names of todopalm-web/src/lib/icons/CategoryIcon.tsx. */
module ChooseCategoriesModal {
  import opened Common

  /** The ten categories the modal offers, in display order. */
  const CATEGORIES: seq<string> :=
    ["School", "Work", "Personal", "Shopping", "Travel", "Family", "Health", "Finance", "Hobbies", "Other"]

  /** The names `ICON_MAP` has an icon for: every category except "Other". */
  const ICON_NAMES: set<string> :=
    {"School", "Work", "Personal", "Shopping", "Travel", "Family", "Health", "Finance", "Hobbies"}

  /** The occupation preselected in the modal: the first of its occupation list. */
  const FIRST_OCCUPATION := "Student"

  /** One selected category as it is sent to the backend. */
  datatype Choice = Choice(name: string, icon: string)

  /** `ICON_MAP[name] ? name : "Other"` */
  function IconFor(name: string): (icon: string)
    ensures name in ICON_NAMES ==> icon == name
    ensures name !in ICON_NAMES ==> icon == "Other"
  {
    if name in ICON_NAMES then name else "Other"
  }

  /** For every offered category the fallback is never visible: the icon name is
      the category's own name. */
  lemma IconOfOfferedIsName(name: string)
    requires name in CATEGORIES
    ensures IconFor(name) == name
  {
  }

  /** The first render's selection: all ten categories, in order, each with its
      own name as icon. */
  function InitialSelection(): (sel: seq<Choice>)
    ensures |sel| == |CATEGORIES|
    ensures forall i :: 0 <= i < |sel| ==> sel[i] == Choice(CATEGORIES[i], CATEGORIES[i])
  {
    seq(|CATEGORIES|, i requires 0 <= i < |CATEGORIES| => Choice(CATEGORIES[i], CATEGORIES[i]))
  }

  /** The checkbox of `name` is checked: `selectedCategories.find(c => c.name === name)`. */
  predicate IsChecked(sel: seq<Choice>, name: string)
  {
    exists i :: 0 <= i < |sel| && sel[i].name == name
  }

  /** `selectedCategories.filter(c => c.name !== name)` */
  function Unchecked(sel: seq<Choice>, name: string): (r: seq<Choice>)
    ensures |r| <= |sel|
    ensures forall c :: c in r <==> c in sel && c.name != name
  {
    if sel == [] then []
    else
      var rest := Unchecked(sel[1..], name);
      assert forall c :: c in sel <==> c == sel[0] || c in sel[1..];
      (if sel[0].name == name then [] else [sel[0]]) + rest
  }

  /** Names that are pairwise distinct stay so after a removal. */
  lemma {:induction false} UncheckedDistinct(sel: seq<Choice>, name: string)
    requires forall i, j :: 0 <= i < j < |sel| ==> sel[i].name != sel[j].name
    ensures forall i, j :: 0 <= i < j < |Unchecked(sel, name)| ==> Unchecked(sel, name)[i].name != Unchecked(sel, name)[j].name
  {
    if sel != [] {
      var rest := Unchecked(sel[1..], name);
      UncheckedDistinct(sel[1..], name);
      assert forall i, j :: 0 <= i < j < |rest| ==> rest[i].name != rest[j].name;
      if sel[0].name == name {
        assert Unchecked(sel, name) == rest;
      } else {
        var r := [sel[0]] + rest;
        assert Unchecked(sel, name) == r;
        assert forall i :: 0 < i < |r| ==> r[i] == rest[i - 1];
        forall i, j | 0 <= i < j < |r| ensures r[i].name != r[j].name {
          if i == 0 {
            assert r[j] in rest;
            assert r[j] in sel[1..];
            var k :| 0 <= k < |sel[1..]| && sel[1..][k] == r[j];
            assert sel[k + 1] == r[j] && r[0] == sel[0];
            assert sel[0].name != sel[k + 1].name;
          } else {
            assert r[i] == rest[i - 1] && r[j] == rest[j - 1];
          }
        }
      }
    }
  }

  /** What the selection holds between events: known category names, each with
      its own name as icon, each at most once. */
  ghost predicate Consistent(sel: seq<Choice>)
  {
    && (forall i :: 0 <= i < |sel| ==> sel[i].name in CATEGORIES && sel[i].icon == sel[i].name)
    && (forall i, j :: 0 <= i < j < |sel| ==> sel[i].name != sel[j].name)
  }

  lemma InitialSelectionConsistent()
    ensures Consistent(InitialSelection())
  {
    var sel := InitialSelection();
    forall i, j | 0 <= i < j < |sel| ensures sel[i].name != sel[j].name {
      assert CATEGORIES[i] != CATEGORIES[j];
    }
  }

  /** `isValidSubmit` */
  predicate IsValidSubmit(occupation: string, sel: seq<Choice>)
  {
    occupation != "" && |sel| > 0
  }

  /** What a submit sends: the occupation to the profile endpoint and the
      selection to the categories endpoint. */
  datatype Submission = Submission(occupation: string, categories: seq<Choice>)

  /** The modal component. */
  class ChooseCategoriesModal {
    var selected: seq<Choice>
    var occupation: string
    var loading: bool

    ghost predicate Valid()
      reads this
    {
      Consistent(selected)
    }

    constructor ()
      ensures selected == InitialSelection() && occupation == FIRST_OCCUPATION && !loading
      ensures Valid()
    {
      selected := InitialSelection();
      occupation := FIRST_OCCUPATION;
      loading := false;
      InitialSelectionConsistent();
    }

    /** A pick in the occupation list. */
    method ChooseOccupation(o: string)
      modifies this
      ensures occupation == o && selected == old(selected) && loading == old(loading)
    {
      occupation := o;
    }

    /** A click on the checkbox of an offered category: an unchecked box appends the
        category (with its icon or the "Other" fallback) at the end, a checked box
        removes every entry with that name. The box's checked state flips, and the
        selection stays consistent. */
    method Click(name: string)
      requires Valid() && name in CATEGORIES
      modifies this
      ensures Valid()
      ensures IsChecked(selected, name) == !IsChecked(old(selected), name)
      ensures !IsChecked(old(selected), name) ==> selected == old(selected) + [Choice(name, IconFor(name))]
      ensures IsChecked(old(selected), name) ==> selected == Unchecked(old(selected), name)
      ensures forall other :: other != name ==> (IsChecked(selected, other) <==> IsChecked(old(selected), other))
      ensures occupation == old(occupation) && loading == old(loading)
    {
      var checked := exists i :: 0 <= i < |selected| && selected[i].name == name;
      if !checked {
        selected := selected + [Choice(name, IconFor(name))];
        assert selected[|selected| - 1].name == name;
        forall other | other != name && IsChecked(selected, other) ensures IsChecked(old(selected), other) {
          var i :| 0 <= i < |selected| && selected[i].name == other;
          assert i < |old(selected)| && old(selected)[i].name == other;
        }
        forall other | IsChecked(old(selected), other) ensures IsChecked(selected, other) {
          var i :| 0 <= i < |old(selected)| && old(selected)[i].name == other;
          assert selected[i].name == other;
        }
      } else {
        var before := selected;
        selected := Unchecked(selected, name);
        forall i | 0 <= i < |selected| ensures selected[i].name in CATEGORIES && selected[i].icon == selected[i].name {
          assert selected[i] in before;
        }
        UncheckedDistinct(before, name);
        forall other | other != name && IsChecked(before, other) ensures IsChecked(selected, other) {
          var i :| 0 <= i < |before| && before[i].name == other;
          assert before[i] in selected;
        }
        forall i | 0 <= i < |selected| ensures selected[i].name != name {
          assert selected[i] in selected;
        }
      }
    }

    /** A click on the submit button: with a valid form it sets `loading` and sends
        the occupation and the selection; otherwise nothing happens. */
    method Submit() returns (sent: Option<Submission>)
      modifies this
      ensures sent.Some? <==> IsValidSubmit(old(occupation), old(selected))
      ensures sent.Some? ==> sent.value == Submission(occupation, selected) && loading
      ensures selected == old(selected) && occupation == old(occupation)
      ensures sent.None? ==> loading == old(loading)
    {
      if occupation != "" && |selected| > 0 {
        loading := true;
        return Some(Submission(occupation, selected));
      }
      return None;
    }
  }

}
