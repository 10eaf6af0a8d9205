/** The stem check boxes: a dictionary from stem name to "checked", in insertion
    order, as the panel keeps it. */
module StemSelection {

  /** One check box: the stem it stands for and whether it is ticked. */
  datatype Checkbox = Checkbox(stem: string, checked: bool)

  /** The panel's boxes in dictionary order. */
  datatype Section = Section(boxes: seq<Checkbox>)

  /** The panel as it is built: no boxes. */
  const Initial := Section([])

  /** The stems in dictionary order. */
  function Stems(boxes: seq<Checkbox>): (r: seq<string>)
    ensures |r| == |boxes|
    ensures forall i :: 0 <= i < |r| ==> r[i] == boxes[i].stem
  {
    seq(|boxes|, i requires 0 <= i < |boxes| => boxes[i].stem)
  }

  /** A dictionary holds each key once. */
  predicate Distinct(xs: seq<string>) {
    forall i, j :: 0 <= i < j < |xs| ==> xs[i] != xs[j]
  }

  predicate Valid(s: Section) {
    Distinct(Stems(s.boxes))
  }

  /** `d[stem] = Checkbox(checked)`: a new key goes at the end, an existing key
      keeps its place and takes the new box. */
  function Put(boxes: seq<Checkbox>, stem: string, checked: bool): (r: seq<Checkbox>)
    requires Distinct(Stems(boxes))
    ensures Distinct(Stems(r))
    ensures stem in Stems(boxes) ==> Stems(r) == Stems(boxes)
    ensures stem !in Stems(boxes) ==> Stems(r) == Stems(boxes) + [stem]
    ensures forall i :: 0 <= i < |r| ==> r[i].checked == (if r[i].stem == stem then checked else boxes[i].checked)
  {
    if stem in Stems(boxes) then
      seq(|boxes|, i requires 0 <= i < |boxes| => if boxes[i].stem == stem then Checkbox(stem, checked) else boxes[i])
    else boxes + [Checkbox(stem, checked)]
  }

  /** The boxes after adding each stem in turn, ticked. */
  function AddAll(boxes: seq<Checkbox>, stems: seq<string>): (r: seq<Checkbox>)
    requires Distinct(Stems(boxes))
    ensures Distinct(Stems(r))
    decreases |stems|
  {
    if |stems| == 0 then boxes
    else AddAll(Put(boxes, stems[0], true), stems[1..])
  }

  /** `update_stems`: drop every box, then add one ticked box per stem. */
  function UpdateStems(s: Section, stems: seq<string>): (r: Section)
    ensures Valid(r)
  {
    Section(AddAll([], stems))
  }

  /** `get_selected_stems`: the ticked stems, in dictionary order. */
  function SelectedStems(boxes: seq<Checkbox>): (r: seq<string>)
    ensures |r| <= |boxes|
    ensures forall x :: x in r <==> exists i :: 0 <= i < |boxes| && boxes[i].stem == x && boxes[i].checked
  {
    if |boxes| == 0 then []
    else
      var rest := SelectedStems(boxes[1..]);
      assert forall i :: 1 <= i < |boxes| ==> boxes[i] == boxes[1..][i - 1];
      if boxes[0].checked then [boxes[0].stem] + rest else rest
  }

  /** Set every box's tick to the same value. */
  function TickAll(boxes: seq<Checkbox>, checked: bool): (r: seq<Checkbox>)
    ensures Stems(r) == Stems(boxes)
    ensures forall i :: 0 <= i < |r| ==> r[i].checked == checked
  {
    seq(|boxes|, i requires 0 <= i < |boxes| => Checkbox(boxes[i].stem, checked))
  }

  /** `select_all_stems`. */
  function SelectAll(s: Section): (r: Section)
    ensures SelectedStems(r.boxes) == Stems(s.boxes)
    ensures Stems(r.boxes) == Stems(s.boxes)
  {
    var r := Section(TickAll(s.boxes, true));
    AllTickedSelected(r.boxes);
    r
  }

  /** `deselect_all_stems`. */
  function DeselectAll(s: Section): (r: Section)
    ensures SelectedStems(r.boxes) == []
    ensures Stems(r.boxes) == Stems(s.boxes)
  {
    var r := Section(TickAll(s.boxes, false));
    NoneTickedNoneSelected(r.boxes);
    r
  }

  /** `set_stem_selection`: tick or untick a known stem; an unknown one is ignored. */
  function SetStemSelection(s: Section, stem: string, selected: bool): (r: Section)
    requires Valid(s)
    ensures stem !in Stems(s.boxes) ==> r == s
    ensures Stems(r.boxes) == Stems(s.boxes)
    ensures forall i :: 0 <= i < |r.boxes| ==>
      r.boxes[i].checked == (if r.boxes[i].stem == stem then selected else s.boxes[i].checked)
  {
    if stem in Stems(s.boxes) then Section(Put(s.boxes, stem, selected)) else s
  }

  /** `is_stem_selected`: the stem has a box and it is ticked. */
  predicate IsStemSelected(s: Section, stem: string) {
    exists i :: 0 <= i < |s.boxes| && s.boxes[i].stem == stem && s.boxes[i].checked
  }

  /** When every box is ticked, the selection is every stem, in order. */
  lemma {:induction false} AllTickedSelected(boxes: seq<Checkbox>)
    requires forall i :: 0 <= i < |boxes| ==> boxes[i].checked
    ensures SelectedStems(boxes) == Stems(boxes)
  {
    if |boxes| > 0 {
      AllTickedSelected(boxes[1..]);
      assert Stems(boxes) == [boxes[0].stem] + Stems(boxes[1..]);
    }
  }

  /** When no box is ticked, nothing is selected. */
  lemma NoneTickedNoneSelected(boxes: seq<Checkbox>)
    requires forall i :: 0 <= i < |boxes| ==> !boxes[i].checked
    ensures SelectedStems(boxes) == []
  {
  }

  /** The selection is an order-preserving subsequence of the stems: position j
      of the selection is the stem of a ticked box at a position p(j), and p grows. */
  lemma {:induction false} SelectedStemsInOrder(boxes: seq<Checkbox>) returns (p: seq<nat>)
    ensures |p| == |SelectedStems(boxes)|
    ensures forall j :: 0 <= j < |p| ==> p[j] < |boxes| && boxes[p[j]].checked && boxes[p[j]].stem == SelectedStems(boxes)[j]
    ensures forall j, k :: 0 <= j < k < |p| ==> p[j] < p[k]
  {
    if |boxes| == 0 {
      p := [];
    } else {
      var q := SelectedStemsInOrder(boxes[1..]);
      var shifted := seq(|q|, j requires 0 <= j < |q| => q[j] + 1);
      if boxes[0].checked {
        p := [0] + shifted;
      } else {
        p := shifted;
      }
    }
  }

  /** A stem is reported selected exactly when `get_selected_stems` lists it; in
      particular an unknown stem is never selected. */
  lemma IsStemSelectedListed(s: Section, stem: string)
    ensures IsStemSelected(s, stem) <==> stem in SelectedStems(s.boxes)
    ensures stem !in Stems(s.boxes) ==> !IsStemSelected(s, stem)
  {
  }

  /** Adding distinct new stems one by one appends them in order, all ticked. */
  lemma {:induction false} AddAllFresh(boxes: seq<Checkbox>, stems: seq<string>)
    requires Distinct(Stems(boxes)) && Distinct(stems)
    requires forall x :: x in stems ==> x !in Stems(boxes)
    requires forall i :: 0 <= i < |boxes| ==> boxes[i].checked
    ensures Stems(AddAll(boxes, stems)) == Stems(boxes) + stems
    ensures forall i :: 0 <= i < |AddAll(boxes, stems)| ==> AddAll(boxes, stems)[i].checked
    decreases |stems|
  {
    if |stems| > 0 {
      var next := Put(boxes, stems[0], true);
      assert Stems(next) == Stems(boxes) + [stems[0]];
      assert forall x :: x in stems[1..] ==> x !in Stems(next) by {
        forall x | x in stems[1..] ensures x !in Stems(next) {
          var k :| 0 <= k < |stems[1..]| && stems[1..][k] == x;
          assert stems[k + 1] == x;
        }
      }
      AddAllFresh(next, stems[1..]);
      assert Stems(boxes) + [stems[0]] + stems[1..] == Stems(boxes) + stems;
    }
  }

  /** After `update_stems` with distinct stems, the boxes are exactly those stems in
      order, all ticked, so the selection is the whole list; what was there before
      is gone. */
  lemma UpdateStemsSelectsAll(s: Section, stems: seq<string>)
    requires Distinct(stems)
    ensures Stems(UpdateStems(s, stems).boxes) == stems
    ensures SelectedStems(UpdateStems(s, stems).boxes) == stems
  {
    AddAllFresh([], stems);
    assert Stems([]) + stems == stems;
    AllTickedSelected(UpdateStems(s, stems).boxes);
  }

  /** Setting a known stem's selection is what `is_stem_selected` then reports, and
      every other stem keeps its state. */
  lemma SetThenIsSelected(s: Section, stem: string, selected: bool, other: string)
    requires Valid(s) && stem in Stems(s.boxes) && other != stem
    ensures IsStemSelected(SetStemSelection(s, stem, selected), stem) == selected
    ensures IsStemSelected(SetStemSelection(s, stem, selected), other) == IsStemSelected(s, other)
  {
    var r := SetStemSelection(s, stem, selected);
    var i :| 0 <= i < |s.boxes| && Stems(s.boxes)[i] == stem;
    assert r.boxes[i].stem == stem;
    if IsStemSelected(r, stem) {
      var j :| 0 <= j < |r.boxes| && r.boxes[j].stem == stem && r.boxes[j].checked;
    }
    if IsStemSelected(s, other) {
      var j :| 0 <= j < |s.boxes| && s.boxes[j].stem == other && s.boxes[j].checked;
      assert r.boxes[j].stem == other;
    }
    if IsStemSelected(r, other) {
      var j :| 0 <= j < |r.boxes| && r.boxes[j].stem == other && r.boxes[j].checked;
      assert s.boxes[j].stem == other;
    }
  }
}
