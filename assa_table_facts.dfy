/** The completion facts that hold for the source's own tag table. */
module AssaTableFacts {
  import opened AssaKeywords
  import opened AssaIntellisense

  /** Some entry of the tag table inserts `v`. */
  predicate IsListed(v: string)
  {
    exists kw :: kw in Keywords && kw.Value() == v
  }

  /** The style and border groups are part of the tag table. */
  lemma StyleAndBorderTagsAreKeywords()
    ensures forall kw :: kw in StyleTags || kw in BorderTags ==> kw in Keywords
  {
    var head := StyleTags + PlacementTags + AlignmentTags;
    assert forall kw :: kw in StyleTags ==> kw in head;
    assert forall kw :: kw in head || kw in BorderTags ==> kw in head + BorderTags;
  }

  /** Every closing tag the completion proposes is an entry of the tag table. */
  lemma ClosingTagsAreKeywords()
    ensures forall k :: 0 <= k < |ClosingTags| ==> IsListed(ClosingTags[k].1)
  {
    var closers := [StyleTags[1], StyleTags[5], StyleTags[3], StyleTags[7], BorderTags[7]];
    assert forall k :: 0 <= k < |ClosingTags| ==> closers[k].Value() == ClosingTags[k].1;
    assert forall k :: 0 <= k < |closers| ==> closers[k] in StyleTags || closers[k] in BorderTags;
    StyleAndBorderTagsAreKeywords();
  }

  /** The tag table has an entry allowed in transforms: `\be`. */
  lemma SomeKeywordAnimates()
    ensures exists kw :: kw in Keywords && kw.allowInTransformations
  {
    var be := BorderTags[6];
    assert be in BorderTags && be.allowInTransformations;
    StyleAndBorderTagsAreKeywords();
    assert be in Keywords;
  }

  /** Right after `\t(` the list box for the tag table is shown. */
  lemma TransformListIsShown(text: string, selectionStart: int, lastAddedTags: seq<string>)
    requires 0 <= selectionStart <= |text|
    requires EndsWith(text[..selectionStart], "\\t(")
    ensures AutoComplete(Keywords, text, selectionStart, lastAddedTags).Shown?
  {
    SomeKeywordAnimates();
    TransformListShownIff(Keywords, text, selectionStart, lastAddedTags);
  }

  /** With nothing typed after a recognised opening tag, the list box shows
      the whole table and preselects the tag that closes it. */
  lemma ClosingTagPreselectedWhenNothingTyped(text: string, selectionStart: int, lastAddedTags: seq<string>)
    requires 0 <= selectionStart <= |text|
    requires !EndsWith(text[..selectionStart], "\\t(")
    requires GetLastString(Keywords, text[..selectionStart]) == ""
    requires GetEndTagFromLastTagInText(text[..selectionStart]) != ""
    ensures var popup := AutoComplete(Keywords, text, selectionStart, lastAddedTags);
      popup.Shown? && |popup.items| == |Keywords| &&
      popup.items[popup.selectedIndex].value == GetEndTagFromLastTagInText(text[..selectionStart])
  {
    var endTag := GetEndTagFromLastTagInText(text[..selectionStart]);
    EndTagClosesLastOpenedTag(text[..selectionStart]);
    var k :| 0 <= k < |ClosingTags| && endTag == ClosingTags[k].1;
    ClosingTagsAreKeywords();
    assert IsListed(ClosingTags[k].1);
    ClosingTagPreselectedWhenListed(Keywords, text, selectionStart, lastAddedTags);
  }
}
