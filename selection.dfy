/** The selection store: the array of chosen symptoms (or diseases) that the
    dropdown items toggle, the tags' remove buttons shrink and the clear
    buttons empty. */
module Selection {
  import opened Seqs

  /** The array after `toggleSelection(x, s)`: `x` taken out if it was
      selected, appended at the end otherwise. */
  function Toggled(s: seq<string>, x: string): seq<string> {
    if x in s then Erase(s, x) else s + [x]
  }

  /** Toggling flips the membership of `x` and of nothing else, keeps the
      array duplicate-free, and changes its length by exactly one. */
  lemma ToggledMembership(s: seq<string>, x: string)
    requires NoDup(s)
    ensures var r := Toggled(s, x);
      && NoDup(r)
      && (x in r <==> x !in s)
      && (forall y :: y != x ==> (y in r <==> y in s))
      && |r| == if x in s then |s| - 1 else |s| + 1
  {
    if x in s {
      EraseNoDup(s, x);
      EraseMembership(s, x);
    } else {
      var r := s + [x];
      forall i, j | 0 <= i < j < |r| ensures r[i] != r[j] {
        if j == |s| {
          assert r[i] == s[i];
        }
      }
    }
  }

  /** The other selected items keep their relative order: leaving `x` aside,
      the array is what it was. */
  lemma ToggledKeepsOthers(s: seq<string>, x: string)
    ensures Erase(Toggled(s, x), x) == Erase(s, x)
  {
    if x in s {
      EraseTwice(s, x);
    } else {
      EraseAppend(s, [x], x);
      assert [x][..0] == [];
    }
  }

  /** Toggling the same item twice restores the selected set; an item that was
      selected comes back at the end, not at its old position, and an item
      that was not selected leaves the array exactly as it was. */
  lemma ToggleTwice(s: seq<string>, x: string)
    requires NoDup(s)
    ensures var r := Toggled(Toggled(s, x), x);
      && (forall y :: y in r <==> y in s)
      && (x in s ==> r == Erase(s, x) + [x])
      && (x !in s ==> r == s)
  {
    if x in s {
      EraseMembership(s, x);
    } else {
      var t := s + [x];
      assert x in t;
      assert t[..|t| - 1] == s;
      EraseAbsent(s, x);
      assert Erase(t, x) == Erase(s, x);
    }
  }

  /** The two-step example of the app's behaviour: "feverish" then "chills"
      gives both in that order, and toggling "feverish" again leaves
      "chills" alone. */
  lemma ToggleExample()
    ensures Toggled(Toggled([], "feverish"), "chills") == ["feverish", "chills"]
    ensures Toggled(["feverish", "chills"], "feverish") == ["chills"]
  {
    var s: seq<string> := ["feverish", "chills"];
    assert s[..1] == ["feverish"];
    assert s[..1][..0] == [];
  }

  /** One selection array (`selectedSymptoms` or `selectedDiseases`). */
  class SelectionList {
    var items: seq<string>

    /** A toggle appends only absent items, so no item is ever listed twice. */
    ghost predicate Valid()
      reads this
    {
      NoDup(items)
    }

    /** `let selected... = []`. */
    constructor ()
      ensures Valid() && items == []
    {
      items := [];
    }

    /** `toggleSelection`: `indexOf`, then `splice(index, 1)` when found and
        `push(item)` otherwise. */
    method Toggle(item: string)
      requires Valid()
      modifies this
      ensures Valid()
      ensures items == Toggled(old(items), item)
    {
      ToggledMembership(items, item);
      var index := IndexOf(items, item);
      if index > -1 {
        SpliceIsErase(items, item);
        items := items[..index] + items[index + 1..];
      } else {
        items := items + [item];
      }
    }

    /** The remove button of a selected-item tag: `splice` only when the item
        is still present, otherwise nothing changes. */
    method Remove(item: string)
      requires Valid()
      modifies this
      ensures Valid()
      ensures items == Erase(old(items), item)
      ensures item !in old(items) ==> items == old(items)
    {
      EraseNoDup(items, item);
      if item !in items {
        EraseAbsent(items, item);
      }
      var index := IndexOf(items, item);
      if index > -1 {
        SpliceIsErase(items, item);
        items := items[..index] + items[index + 1..];
      }
    }

    /** The clear button: the selection becomes empty. */
    method Clear()
      modifies this
      ensures Valid() && items == []
    {
      items := [];
    }
  }
}
