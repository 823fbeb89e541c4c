/** The multi-select of the task and study lists: a list of selected ids
    where clicking an id removes it when present and appends it
    otherwise (components/Tasks.tsx, components/StudyPlanner.tsx). */
module Selection {
  import opened Seqs

  function ToggleSelect(sel: seq<string>, id: string): (r: seq<string>)
    ensures id in r <==> id !in sel
    ensures forall x :: x != id ==> (x in r <==> x in sel)
    ensures NoDup(sel) ==> NoDup(r)
    ensures id !in sel ==> |r| == |sel| + 1 && r[..|sel|] == sel
    ensures id in sel ==> IsSubsequence(r, sel)
  {
    if id in sel then
      var p := (x: string) => x != id;
      assert NoDup(sel) ==> NoDup(Filter(sel, p)) by {
        if NoDup(sel) { FilterNoDup(sel, p); }
      }
      Filter(sel, p)
    else
      assert (sel + [id])[..|sel|] == sel;
      sel + [id]
  }

  /** Toggling the same id twice restores the selected set; when the id
      was not selected it restores the very list. (A selected id that is
      toggled off and on again moves to the end.) */
  lemma ToggleSelectTwice(sel: seq<string>, id: string)
    ensures forall x :: x in ToggleSelect(ToggleSelect(sel, id), id) <==> x in sel
    ensures id !in sel ==> ToggleSelect(ToggleSelect(sel, id), id) == sel
  {
    if id !in sel {
      var p := (x: string) => x != id;
      FilterAppendNone(sel, [id], p);
      assert forall i :: 0 <= i < |sel| ==> sel[i] in sel;
      FilterAll(sel, p);
    }
  }
}
