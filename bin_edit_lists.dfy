/** The three parallel lists of the binary-subtitle editor form and the
    operations that change them row by row: deleting the selected rows,
    inserting a blank row, and importing time codes. Row `i` of the form is
    `paragraphs[i]` (its times), `extras[i]` (forced flag, position, edited
    bitmap) and, when a binary subtitle is loaded, `binSubtitles[i]` (the
    decoded event). */
module BinEditLists {
  import opened Basics
  import PgsMatroska
  import DvbMatroska

  /** The size of a bitmap the form created itself; pixels are not modelled. */
  datatype Bitmap = Bitmap(width: nat, height: nat)

  /** `BinEdit.Extra`: the editing state of one row. No bitmap means the row
      shows the image decoded from its event. */
  datatype Extra = Extra(isForced: bool, x: int, y: int, bitmap: Option<Bitmap>)

  /** An element of `_binSubtitles`: an event of the loaded binary subtitle. */
  datatype BinaryParagraph =
    | Pgs(pcs: PgsMatroska.PcsData)
    | Dvb(ts: DvbMatroska.TsSubtitle)

  /** `new BluRaySupParser.PcsData()`: the event stored for an inserted row. */
  const EmptyPcsData := Pgs(PgsMatroska.PcsData(0, 0, []))

  /** The values of the "forced", "X" and "Y" controls when a row is inserted. */
  datatype EditorFields = EditorFields(isForced: bool, x: int, y: int)

  /** The extra of an inserted row: the controls' values and a blank 2x2 bitmap. */
  function NewExtra(fields: EditorFields): Extra
  {
    Extra(fields.isForced, fields.x, fields.y, Some(Bitmap(2, 2)))
  }

  /** A snapshot of the form's three lists. */
  datatype Lists = Lists(paragraphs: seq<Paragraph>, extras: seq<Extra>, binSubtitles: Option<seq<BinaryParagraph>>)

  /** Every row has its extra and, when events are loaded, its event. */
  predicate Aligned(l: Lists)
  {
    |l.extras| == |l.paragraphs| && (l.binSubtitles.Some? ==> |l.binSubtitles.value| == |l.paragraphs|)
  }

  /** `List<T>.RemoveAt`. */
  function RemoveAt<T>(s: seq<T>, i: int): (r: seq<T>)
    requires 0 <= i < |s|
    ensures |r| == |s| - 1
  {
    s[..i] + s[i + 1..]
  }

  /** `List<T>.Insert`. */
  function InsertAt<T>(s: seq<T>, i: int, x: T): (r: seq<T>)
    requires 0 <= i <= |s|
    ensures |r| == |s| + 1 && r[i] == x
  {
    s[..i] + [x] + s[i..]
  }

  // ----- Deleting rows -----

  /** The elements of `s` from index `lo` on whose index is not in `removed`, in order. */
  function KeptFrom<T>(s: seq<T>, removed: set<int>, lo: nat): seq<T>
    decreases |s| - lo
  {
    if lo >= |s| then []
    else (if lo in removed then [] else [s[lo]]) + KeptFrom(s, removed, lo + 1)
  }

  /** The elements of `s` whose index is not in `removed`, in order. */
  function Kept<T>(s: seq<T>, removed: set<int>): seq<T>
  {
    KeptFrom(s, removed, 0)
  }

  /** A run of indices none of which is removed is kept whole. */
  lemma {:induction false} KeptFromPrefix<T>(s: seq<T>, removed: set<int>, lo: nat, i: nat)
    requires lo <= i <= |s|
    requires forall r :: r in removed ==> !(lo <= r < i)
    ensures KeptFrom(s, removed, lo) == s[lo..i] + KeptFrom(s, removed, i)
    decreases i - lo
  {
    if lo < i {
      KeptFromPrefix(s, removed, lo + 1, i);
      var rest := KeptFrom(s, removed, i);
      assert KeptFrom(s, removed, lo) == [s[lo]] + KeptFrom(s, removed, lo + 1) by {
        assert lo !in removed;
      }
      assert s[lo..i] == [s[lo]] + s[lo + 1..i];
      assert [s[lo]] + (s[lo + 1..i] + rest) == ([s[lo]] + s[lo + 1..i]) + rest;
    }
  }

  /** Removing an index below `lo` does not change what is kept from `lo` on. */
  lemma {:induction false} KeptFromIgnoresBelow<T>(s: seq<T>, removed: set<int>, lo: nat, r: int)
    requires r < lo
    ensures KeptFrom(s, removed + {r}, lo) == KeptFrom(s, removed, lo)
    decreases |s| - lo
  {
    if lo < |s| {
      KeptFromIgnoresBelow(s, removed, lo + 1, r);
    }
  }

  /** Removing nothing keeps everything. */
  lemma KeptNothing<T>(s: seq<T>)
    ensures Kept(s, {}) == s
  {
    KeptFromPrefix(s, {}, 0, |s|);
  }

  /** The step of the descending deletion: once every larger selected index
      is gone, `RemoveAt(i)` removes exactly original row `i`. */
  lemma KeptRemoveAt<T>(s: seq<T>, removed: set<int>, i: int)
    requires 0 <= i < |s| && i !in removed
    requires forall r :: r in removed ==> r > i
    ensures i < |Kept(s, removed)|
    ensures Kept(s, removed + {i}) == RemoveAt(Kept(s, removed), i)
  {
    var pre := s[0..i];
    var rest := KeptFrom(s, removed, i + 1);
    var kept := pre + ([s[i]] + rest);
    assert Kept(s, removed) == kept by {
      KeptFromPrefix(s, removed, 0, i);
      assert KeptFrom(s, removed, i) == [s[i]] + rest;
    }
    assert Kept(s, removed + {i}) == pre + rest by {
      KeptFromPrefix(s, removed + {i}, 0, i);
      KeptFromIgnoresBelow(s, removed, i + 1, i);
      assert KeptFrom(s, removed + {i}, i) == rest;
    }
    assert kept[..i] == pre && kept[i + 1..] == rest by {
      assert |pre| == i;
    }
  }

  /** The form's selected rows: strictly ascending indices of existing rows,
      as `ListView.SelectedIndices` lists them. */
  predicate IsSelection(selected: seq<int>, n: int)
  {
    (forall k :: 0 <= k < |selected| ==> 0 <= selected[k] < n) &&
    (forall j, k :: 0 <= j < k < |selected| ==> selected[j] < selected[k])
  }

  function SelectedSet(selected: seq<int>, from: int): set<int>
  {
    set k | from <= k < |selected| && 0 <= k :: selected[k]
  }

  /** Later selected indices are at least as many rows further down. */
  lemma {:induction false} AscendingSpread(selected: seq<int>, n: int, j: nat, k: nat)
    requires IsSelection(selected, n) && j <= k < |selected|
    ensures selected[j] + (k - j) <= selected[k]
    decreases k - j
  {
    if j < k {
      AscendingSpread(selected, n, j + 1, k);
    }
  }

  /** The lists once the rows in `removed` are deleted from each of them. */
  function Deleted(l: Lists, removed: set<int>): Lists
  {
    Lists(Kept(l.paragraphs, removed), Kept(l.extras, removed),
          if l.binSubtitles.Some? then Some(Kept(l.binSubtitles.value, removed)) else None)
  }

  /** The row selected after a deletion: the first selected index, moved up
      one row when it is past the end of the shortened list, and nothing when
      no row is left. */
  function SelectionAfterDelete(first: int, newCount: int): Option<int>
  {
    var idx := if first >= newCount && first > 0 then first - 1 else first;
    if 0 <= idx < newCount then Some(idx) else None
  }

  /** After deleting a non-empty selection some row is selected exactly when
      rows are left, and it is the first selected index or, when that is now
      past the end, the last row. */
  lemma SelectionAfterDeleteIsClamped(selected: seq<int>, n: int)
    requires IsSelection(selected, n) && |selected| > 0
    ensures var r := SelectionAfterDelete(selected[0], n - |selected|);
      (r.Some? <==> n > |selected|) &&
      (r.Some? ==> r.value == if selected[0] < n - |selected| then selected[0] else n - |selected| - 1)
  {
    AscendingSpread(selected, n, 0, |selected| - 1);
  }

  // ----- Inserting a row -----

  /** The outcome of an insertion: the new lists and the row the form selects
      afterwards (none when the selection is left alone). */
  datatype InsertOutcome = InsertOutcome(lists: Lists, selected: Option<int>)

  /** Where the new row goes: at the end without a selection, else at the
      first selected row (after it when `after`), and nowhere when a row is
      selected but no binary subtitle is loaded. */
  function InsertPosition(l: Lists, after: bool, first: Option<int>): Option<int>
  {
    if first.None? then Some(|l.paragraphs|)
    else if l.binSubtitles.None? then None
    else Some(if after then first.value + 1 else first.value)
  }

  /** The times of a row inserted at `idx`: without a selection it starts at
      0; with one it starts the minimum gap after the row before it, if any.
      It lasts the default duration of a new paragraph. */
  function NewParagraph(ps: seq<Paragraph>, idx: int, selected: bool, settings: Settings): Paragraph
  {
    var pre := ParagraphOrDefault(ps, idx - 1);
    var start := if selected && pre.Some? then pre.value.endMs + settings.minimumMillisecondsBetweenLines else 0;
    Paragraph(start, start + settings.newEmptyDefaultMs)
  }

  /** `InsertParagraph` as the source writes it: without a selection the row
      is appended to the paragraphs and extras but not to `_binSubtitles`.
      An `Insert` past the end of a shorter list throws. */
  function InsertedAsWritten(l: Lists, after: bool, first: Option<int>, fields: EditorFields, settings: Settings): Result<InsertOutcome>
    requires first.Some? ==> 0 <= first.value < |l.paragraphs|
  {
    if first.None? then
      var p := NewParagraph(l.paragraphs, |l.paragraphs|, false, settings);
      Ok(InsertOutcome(Lists(l.paragraphs + [p], l.extras + [NewExtra(fields)], l.binSubtitles), Some(0)))
    else if l.binSubtitles.None? then Ok(InsertOutcome(l, None))
    else
      var idx := if after then first.value + 1 else first.value;
      if idx > |l.extras| || idx > |l.binSubtitles.value| then Failure(ArgumentOutOfRange)
      else
        var p := NewParagraph(l.paragraphs, idx, true, settings);
        Ok(InsertOutcome(
          Lists(InsertAt(l.paragraphs, idx, p), InsertAt(l.extras, idx, NewExtra(fields)),
                Some(InsertAt(l.binSubtitles.value, idx, EmptyPcsData))),
          Some(idx)))
  }

  /** Appending a row to an empty loaded subtitle leaves `_binSubtitles`
      one short, and inserting after that row then throws. */
  lemma UnselectedInsertMisalignsLists(fields: EditorFields, settings: Settings)
    ensures var empty := Lists([], [], Some([]));
      var first := InsertedAsWritten(empty, false, None, fields, settings);
      first.Ok? && !Aligned(first.value.lists) &&
      InsertedAsWritten(first.value.lists, true, Some(0), fields, settings) == Failure(ArgumentOutOfRange)
  {
  }

  /** `InsertParagraph` with every list kept aligned: an appended row also
      gets an empty event. */
  function Inserted(l: Lists, after: bool, first: Option<int>, fields: EditorFields, settings: Settings): InsertOutcome
    requires Aligned(l)
    requires first.Some? ==> 0 <= first.value < |l.paragraphs|
  {
    if first.None? then
      var p := NewParagraph(l.paragraphs, |l.paragraphs|, false, settings);
      var bin := if l.binSubtitles.Some? then Some(l.binSubtitles.value + [EmptyPcsData]) else None;
      InsertOutcome(Lists(l.paragraphs + [p], l.extras + [NewExtra(fields)], bin), Some(0))
    else if l.binSubtitles.None? then InsertOutcome(l, None)
    else
      var idx := if after then first.value + 1 else first.value;
      var p := NewParagraph(l.paragraphs, idx, true, settings);
      InsertOutcome(
        Lists(InsertAt(l.paragraphs, idx, p), InsertAt(l.extras, idx, NewExtra(fields)),
              Some(InsertAt(l.binSubtitles.value, idx, EmptyPcsData))),
        Some(idx))
  }

  /** Deleting the row just inserted gives back the lists one had. */
  lemma {:induction false} DeleteUndoesInsertAt<T>(s: seq<T>, i: int, x: T)
    requires 0 <= i <= |s|
    ensures Kept(InsertAt(s, i, x), {i}) == s
  {
    var t := InsertAt(s, i, x);
    KeptRemoveAt(t, {}, i);
    KeptNothing(t);
    assert {} + {i} == {i};
    assert RemoveAt(t, i) == s;
  }

  /** An insertion keeps the lists aligned, puts one new row at the insert
      position with the default duration, starting after the row before it
      when a row was selected, and deleting that row restores the lists; when
      nothing is inserted, nothing changes. */
  lemma InsertKeepsListsAligned(l: Lists, after: bool, first: Option<int>, fields: EditorFields, settings: Settings)
    requires Aligned(l)
    requires first.Some? ==> 0 <= first.value < |l.paragraphs|
    ensures var out := Inserted(l, after, first, fields, settings);
      var pos := InsertPosition(l, after, first);
      Aligned(out.lists) &&
      (pos.None? ==> out.lists == l && out.selected.None?) &&
      (pos.Some? ==>
        0 <= pos.value < |out.lists.paragraphs| == |l.paragraphs| + 1 &&
        out.lists.paragraphs[pos.value].Duration() == settings.newEmptyDefaultMs &&
        out.lists.paragraphs[pos.value].startMs ==
          (if first.Some? && pos.value > 0 then l.paragraphs[pos.value - 1].endMs + settings.minimumMillisecondsBetweenLines else 0) &&
        out.lists.extras[pos.value] == NewExtra(fields) &&
        Deleted(out.lists, {pos.value}) == l &&
        out.selected == (if first.None? then Some(0) else pos))
  {
    var out := Inserted(l, after, first, fields, settings);
    var pos := InsertPosition(l, after, first);
    if pos.Some? {
      var i := pos.value;
      var p := out.lists.paragraphs[i];
      if first.None? {
        assert out.lists.paragraphs == InsertAt(l.paragraphs, i, p);
        assert out.lists.extras == InsertAt(l.extras, i, NewExtra(fields));
        if l.binSubtitles.Some? {
          assert out.lists.binSubtitles.value == InsertAt(l.binSubtitles.value, i, EmptyPcsData);
          DeleteUndoesInsertAt(l.binSubtitles.value, i, EmptyPcsData);
        }
      } else {
        DeleteUndoesInsertAt(l.binSubtitles.value, i, EmptyPcsData);
      }
      DeleteUndoesInsertAt(l.paragraphs, i, p);
      DeleteUndoesInsertAt(l.extras, i, NewExtra(fields));
    }
  }

  /** The correction touches only the unselected case: with a row selected
      the source's insertion is the aligned one. */
  lemma SelectedInsertAgreesWithSource(l: Lists, after: bool, first: Option<int>, fields: EditorFields, settings: Settings)
    requires Aligned(l)
    requires first.Some? && 0 <= first.value < |l.paragraphs|
    ensures InsertedAsWritten(l, after, first, fields, settings) == Ok(Inserted(l, after, first, fields, settings))
  {
  }

  // ----- Importing time codes -----

  /** The paragraphs once the times of the first `min(|ps|, |timeCodes|)` are
      replaced by those of the imported time codes. */
  function WithImportedTimes(ps: seq<Paragraph>, timeCodes: seq<Paragraph>): (r: seq<Paragraph>)
    ensures |r| == |ps|
  {
    seq(|ps|, i requires 0 <= i < |ps| =>
      if i < |timeCodes| then Paragraph(timeCodes[i].startMs, timeCodes[i].endMs) else ps[i])
  }

  /** Importing the same time codes twice is the same as importing them once,
      and importing at least as many time codes as rows replaces every row's
      times. */
  lemma ImportIsIdempotent(ps: seq<Paragraph>, timeCodes: seq<Paragraph>)
    ensures WithImportedTimes(WithImportedTimes(ps, timeCodes), timeCodes) == WithImportedTimes(ps, timeCodes)
    ensures |timeCodes| >= |ps| ==> WithImportedTimes(ps, timeCodes) == timeCodes[..|ps|]
  {
  }

  /** The form's lists, updated in place. */
  class BinEdit {
    var paragraphs: seq<Paragraph>
    var extras: seq<Extra>
    var binSubtitles: Option<seq<BinaryParagraph>>

    function Snapshot(): Lists
      reads this
    {
      Lists(paragraphs, extras, binSubtitles)
    }

    predicate Valid()
      reads this
    {
      Aligned(Snapshot())
    }

    constructor (l: Lists)
      requires Aligned(l)
      ensures Valid() && Snapshot() == l
    {
      paragraphs := l.paragraphs;
      extras := l.extras;
      binSubtitles := l.binSubtitles;
    }

    /** The delete command: removes the selected rows from every list, largest
        index first, then selects the row `SelectionAfterDelete` names. */
    method DeleteSelected(selected: seq<int>) returns (selectedAfter: Option<int>)
      requires Valid() && IsSelection(selected, |paragraphs|)
      modifies this
      ensures Valid()
      ensures Snapshot() == Deleted(old(Snapshot()), SelectedSet(selected, 0))
      ensures |paragraphs| == old(|paragraphs|) - |selected|
      ensures selectedAfter == if |selected| == 0 then None else SelectionAfterDelete(selected[0], |paragraphs|)
    {
      if |selected| < 1 {
        KeptNothing(paragraphs);
        KeptNothing(extras);
        if binSubtitles.Some? {
          KeptNothing(binSubtitles.value);
        }
        assert SelectedSet(selected, 0) == {};
        return None;
      }
      var idx := selected[0];
      RemoveRows(selected);
      if idx >= |paragraphs| && idx > 0 {
        idx := idx - 1;
      }
      selectedAfter := if idx >= 0 && ParagraphOrDefault(paragraphs, idx).Some? then Some(idx) else None;
    }

    /** Removes the selected rows from every list, last row first, so that
        the indices still to be removed stay valid. */
    method RemoveRows(selected: seq<int>)
      requires Valid() && IsSelection(selected, |paragraphs|)
      modifies this
      ensures Valid()
      ensures Snapshot() == Deleted(old(Snapshot()), SelectedSet(selected, 0))
      ensures |paragraphs| == old(|paragraphs|) - |selected|
    {
      var j := |selected|;
      KeptNothing(paragraphs);
      KeptNothing(extras);
      if binSubtitles.Some? {
        KeptNothing(binSubtitles.value);
      }
      assert SelectedSet(selected, j) == {};
      while j > 0
        invariant 0 <= j <= |selected|
        invariant Valid()
        invariant Snapshot() == Deleted(old(Snapshot()), SelectedSet(selected, j))
        invariant |paragraphs| == old(|paragraphs|) - (|selected| - j)
      {
        j := j - 1;
        var removeIndex := selected[j];
        ghost var removed := SelectedSet(selected, j + 1);
        assert SelectedSet(selected, j) == removed + {removeIndex};
        AscendingSpread(selected, old(|paragraphs|), j, |selected| - 1);
        KeptRemoveAt(old(paragraphs), removed, removeIndex);
        KeptRemoveAt(old(extras), removed, removeIndex);
        if binSubtitles.Some? {
          KeptRemoveAt(old(binSubtitles).value, removed, removeIndex);
          binSubtitles := Some(RemoveAt(binSubtitles.value, removeIndex));
        }
        extras := RemoveAt(extras, removeIndex);
        paragraphs := RemoveAt(paragraphs, removeIndex);
      }
    }

    /** The insert commands: a blank row before or after the first selected
        row, or at the end when no row is selected. */
    method InsertParagraph(after: bool, first: Option<int>, fields: EditorFields, settings: Settings)
      returns (selectedAfter: Option<int>)
      requires Valid()
      requires first.Some? ==> 0 <= first.value < |paragraphs|
      modifies this
      ensures Valid()
      ensures InsertOutcome(Snapshot(), selectedAfter) == Inserted(old(Snapshot()), after, first, fields, settings)
    {
      if first.None? {
        var p := NewParagraph(paragraphs, |paragraphs|, false, settings);
        paragraphs := paragraphs + [p];
        extras := extras + [NewExtra(fields)];
        if binSubtitles.Some? {
          binSubtitles := Some(binSubtitles.value + [EmptyPcsData]);
        }
        return Some(0);
      }
      var idx := first.value;
      if after {
        idx := idx + 1;
      }
      selectedAfter := None;
      if binSubtitles.Some? {
        var p := NewParagraph(paragraphs, idx, true, settings);
        paragraphs := InsertAt(paragraphs, idx, p);
        extras := InsertAt(extras, idx, NewExtra(fields));
        binSubtitles := Some(InsertAt(binSubtitles.value, idx, EmptyPcsData));
        selectedAfter := Some(idx);
      }
    }

    /** The import-time-codes command: copies the times of the imported
        paragraphs onto the rows, stopping at the end of the shorter list, and
        reports how many rows it changed. */
    method ImportTimeCodes(timeCodes: seq<Paragraph>) returns (count: nat)
      requires Valid()
      modifies this
      ensures Valid()
      ensures count == if |timeCodes| < old(|paragraphs|) then |timeCodes| else old(|paragraphs|)
      ensures paragraphs == WithImportedTimes(old(paragraphs), timeCodes)
      ensures extras == old(extras) && binSubtitles == old(binSubtitles)
    {
      count := 0;
      var i := 0;
      while i < |timeCodes|
        invariant 0 <= i <= |timeCodes| && i <= |paragraphs| == old(|paragraphs|)
        invariant count == i
        invariant paragraphs == WithImportedTimes(old(paragraphs), timeCodes[..i])
        invariant extras == old(extras) && binSubtitles == old(binSubtitles)
      {
        var existing := ParagraphOrDefault(paragraphs, i);
        var newTimeCode := ParagraphOrDefault(timeCodes, i);
        if existing.None? || newTimeCode.None? {
          break;
        }
        paragraphs := paragraphs[i := Paragraph(newTimeCode.value.startMs, newTimeCode.value.endMs)];
        count := count + 1;
        i := i + 1;
      }
      assert timeCodes[..i][..] == timeCodes[..i];
      assert WithImportedTimes(old(paragraphs), timeCodes[..i]) == WithImportedTimes(old(paragraphs), timeCodes);
    }
  }
}
