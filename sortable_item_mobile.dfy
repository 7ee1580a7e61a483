/** The mobile list item (src/components/SortableItemMobile.tsx): the same
    colour rule as the desktop item with its own palette, and a text tag
    `Rank n` before submission and `#n` after. */
module SortableItemMobile {
  import opened Common
  import SortableItem

  /** The mobile Tailwind classes of each colour. */
  function MobilePalette(t: SortableItem.Tone): string
  {
    match t
    case Neutral => "bg-indigo-100 text-indigo-700"
    case Correct => "bg-green-600 text-white"
    case Close => "bg-yellow-400 text-gray-800"
    case Incorrect => "bg-red-500 text-white"
  }

  /** What the card renders: the tag's classes and text and `draggable`. */
  datatype MobileView = MobileView(tone: SortableItem.Tone, rankBg: string, rankText: string, draggable: bool)

  /** `SortableItemMobile({ index, isSubmitted, correctRank })` */
  function View(isSubmitted: bool, correctRank: Option<int>, index: nat): (v: MobileView)
    ensures v.tone == SortableItem.ToneOf(isSubmitted, correctRank, index) && v.rankBg == MobilePalette(v.tone)
    ensures !isSubmitted || correctRank.None? ==> v.rankText == "Rank " + NatToString(index + 1)
    ensures isSubmitted && correctRank.Some? ==> v.rankText == "#" + IntToString(correctRank.value)
    ensures v.draggable <==> !isSubmitted
  {
    if isSubmitted && correctRank.Some? then
      var rankText := "#" + IntToString(correctRank.value);
      if correctRank.value == index + 1 then
        MobileView(SortableItem.Correct, "bg-green-600 text-white", rankText, !isSubmitted)
      else if Abs(correctRank.value - (index + 1)) <= 1 then
        MobileView(SortableItem.Close, "bg-yellow-400 text-gray-800", rankText, !isSubmitted)
      else
        MobileView(SortableItem.Incorrect, "bg-red-500 text-white", rankText, !isSubmitted)
    else
      MobileView(SortableItem.Neutral, "bg-indigo-100 text-indigo-700", "Rank " + NatToString(index + 1), !isSubmitted)
  }

  /** The mobile card shows the desktop item's colour and number: the same
      tone, the same draggability, and a text that reads back as the desktop
      number (after `Rank ` before submission, after `#` once submitted). */
  lemma AgreesWithDesktop(isSubmitted: bool, correctRank: Option<int>, index: nat)
    requires correctRank.Some? ==> correctRank.value >= 1
    ensures var m := View(isSubmitted, correctRank, index);
      var d := SortableItem.View(isSubmitted, correctRank, index);
      && m.tone == d.tone
      && m.draggable == d.draggable
      && d.rankText >= 1
      && (d.tone == SortableItem.Neutral ==> m.rankText == "Rank " + NatToString(d.rankText))
      && (d.tone != SortableItem.Neutral ==> m.rankText == "#" + NatToString(d.rankText))
      && DecimalValue(m.rankText[|m.rankText| - |NatToString(d.rankText)|..]) == d.rankText
  {
    var m := View(isSubmitted, correctRank, index);
    var d := SortableItem.View(isSubmitted, correctRank, index);
    NatToStringRoundTrip(d.rankText);
    var digits := NatToString(d.rankText);
    assert m.rankText[|m.rankText| - |digits|..] == digits;
  }
}
