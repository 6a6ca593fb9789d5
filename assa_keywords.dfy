/** The tag table of the Advanced SubStation Alpha (ASSA) autocompletion:
    each override tag it offers, its hint, and whether it may appear inside
    an animated transform `\\t(...)`. */
module AssaKeywords {

  /** `AssaIntellisense.IntellisenseItem` as stored in the table. Every value
      in the source's table is an override block `{\\tag}`, so an entry keeps
      its tag and `Value` rebuilds the block around it. */
  datatype Keyword = Keyword(tag: string, hint: string, allowInTransformations: bool)
  {
    /** The text the entry inserts, `{\\` + tag + `}`. */
    function Value(): string
    {
      "{\\" + tag + "}"
    }
  }

  /** Italic, bold, underline and strikeout on and off. */
  const StyleTags: seq<Keyword> := [
    Keyword("i1", "Italic on", false),
    Keyword("i0", "Italic off", false),
    Keyword("b1", "Bold on", false),
    Keyword("b0", "Bold off", false),
    Keyword("u1", "Underline on", false),
    Keyword("u0", "Underline off", false),
    Keyword("s1", "Strikeout on", false),
    Keyword("s0", "Strikeout off", false)
  ]

  /** Movement, position, colours, fades and font. */
  const PlacementTags: seq<Keyword> := [
    Keyword("mov(x1,y1,x2,y2,start,end)", "Move", false),
    Keyword("pos(x,y)", "Set position", false),
    Keyword("c&Hbbggrr&", "Color", true),
    Keyword("2c&Hbbggrr&", "Color for outline", true),
    Keyword("3c&Hbbggrr&", "Color for opaque box", true),
    Keyword("4c&Hbbggrr&", "Color for shadow", true),
    Keyword("fade(a1,a2,a3,t1,t2,t3,t4)", "Fade advanced", false),
    Keyword("fad(fadein time,fadeout time>", "Fade", false),
    Keyword("fn<font_name>", "Font name", false),
    Keyword("fs<font_size>", "Font size", true)
  ]

  /** The nine alignments. */
  const AlignmentTags: seq<Keyword> := [
    Keyword("an7", "Align top left", false),
    Keyword("an8", "Align top center", false),
    Keyword("an9", "Align top right", false),
    Keyword("an4", "Align center left", false),
    Keyword("an5", "Align center middle", false),
    Keyword("an6", "Align center right", false),
    Keyword("an1", "Align bottom left", false),
    Keyword("an2", "Align bottom middle", false),
    Keyword("an3", "Align bottom right", false)
  ]

  /** Border, shadow and blur. */
  const BorderTags: seq<Keyword> := [
    Keyword("bord<width>", "Border", true),
    Keyword("xbord<x>", "Border width", true),
    Keyword("ybord<y>", "Border height", true),
    Keyword("shad<depth>", "Shadow", true),
    Keyword("xshad<x>", "Shadow width", true),
    Keyword("yshad<y>", "Shadow height", true),
    Keyword("be", "Blur edges", true),
    Keyword("be0", "Blur edges off", true),
    Keyword("be1", "Blur edges on", true)
  ]

  /** Scaling, spacing, rotation, shearing and encoding. */
  const ScaleAndRotationTags: seq<Keyword> := [
    Keyword("fscx<percent>", "Scale X percentage", true),
    Keyword("fscy<percent>", "Scale Y percentage", true),
    Keyword("fsp<pixels>", "Spacing between letters in pixels", true),
    Keyword("fr<degree>", "Angle (z axis for text rotation)", true),
    Keyword("frx<degree>", "Angle (x axis for text rotation)", true),
    Keyword("fry<degree>", "Angle (y axis for text rotation)", true),
    Keyword("frz<degree>", "Angle (z axis for text rotation)", true),
    Keyword("org<x,y>", "Set origin point for rotation", false),
    Keyword("fax<degree>", "Shearing transformation (x axis)", true),
    Keyword("fay<degree>", "Shearing transformation (y axis)", true),
    Keyword("fe<charset>", "Encoding", false)
  ]

  /** Alpha, karaoke, clipping and reset. */
  const AlphaKaraokeAndClipTags: seq<Keyword> := [
    Keyword("alpha&Haa&", "Alpha (00=fully visible, ff=transparent)", true),
    Keyword("a2&Haa&", "Alpha for outline (00=fully visible, ff=transparent)", true),
    Keyword("a3&Haa&", "Alpha for opaque box (00=fully visible, ff=transparent)", true),
    Keyword("a4&Haa&", "Alpha for shadow (00=fully visible, ff=transparent)", true),
    Keyword("k<duration>", "Karaoke, delay in 100th of a second (10ms)", false),
    Keyword("K<duration>", "Karaoke right to left, delay in 100th of a second (10ms)", false),
    Keyword("clip(x1,y1,x2,y2)", "Clips (hides) any drawing outside the rectangle defined by the parameters.", true),
    Keyword("iclip(x1,y1,x2,y2)", "Clips (hides) any drawing inside the rectangle defined by the parameters.", true),
    Keyword("r", "Reset inline styles", false)
  ]

  /** The four forms of the animated transform. */
  const TransformTags: seq<Keyword> := [
    Keyword("t(<style modifiers>)", "Animated transform", false),
    Keyword("t(<accel,style modifiers>)", "Animated transform", false),
    Keyword("t(<t1,t2,style modifiers>)", "Animated transform", false),
    Keyword("t(<t1,t2,accel,style modifiers>)", "Animated transform", false)
  ]

  /** `AssaIntellisense.Keywords`, in the source's order. */
  const Keywords: seq<Keyword> :=
    StyleTags + PlacementTags + AlignmentTags + BorderTags + ScaleAndRotationTags +
    AlphaKaraokeAndClipTags + TransformTags

  /** Every entry of the table is a complete override block: a brace and a
      backslash, the tag, and a closing brace. */
  lemma EveryKeywordIsATagBlock(kw: Keyword)
    ensures |kw.Value()| >= 3
    ensures kw.Value()[..2] == "{\\" && kw.Value()[|kw.Value()| - 1] == '}'
  {
  }
}
