/** The desktop list item (src/components/SortableItem.tsx): the colour and
    number of the rank indicator, and whether the card can be dragged. The
    colour classification is shared with the mobile item. */
module SortableItem {
  import opened Common

  /** The four colours of the rank indicator. */
  datatype Tone = Neutral | Correct | Close | Incorrect

  /** The indicator's colour for the item shown at `index`: neutral until
      the game is submitted or when the correct rank is unknown; then green when
      the rank is right, yellow when it is one off, red otherwise. */
  function ToneOf(isSubmitted: bool, correctRank: Option<int>, index: nat): (t: Tone)
    ensures t == Neutral <==> !isSubmitted || correctRank.None?
    ensures t == Correct <==> isSubmitted && correctRank == Some(index + 1)
    ensures t == Close <==> isSubmitted && correctRank.Some? && Abs(correctRank.value - (index + 1)) == 1
    ensures t == Incorrect <==> isSubmitted && correctRank.Some? && Abs(correctRank.value - (index + 1)) >= 2
  {
    if isSubmitted && correctRank.Some? then
      if correctRank.value == index + 1 then Correct
      else if Abs(correctRank.value - (index + 1)) <= 1 then Close
      else Incorrect
    else Neutral
  }

  /** The desktop Tailwind classes of each colour. */
  function Palette(t: Tone): string
  {
    match t
    case Neutral => "bg-indigo-100 text-indigo-700"
    case Correct => "bg-green-500 text-white"
    case Close => "bg-yellow-400 text-gray-800"
    case Incorrect => "bg-red-400 text-white"
  }

  /** What the item renders: the indicator's classes and number (`rankText`)
      and the `draggable` flag. */
  datatype ItemView = ItemView(tone: Tone, rankBg: string, rankText: int, draggable: bool)

  /** `SortableItem({ index, isSubmitted, correctRank })` */
  function View(isSubmitted: bool, correctRank: Option<int>, index: nat): (v: ItemView)
    ensures v.tone == ToneOf(isSubmitted, correctRank, index) && v.rankBg == Palette(v.tone)
    ensures v.tone == Neutral ==> v.rankText == index + 1
    ensures v.tone != Neutral ==> v.rankText == correctRank.value
    ensures v.draggable <==> !isSubmitted
  {
    if isSubmitted && correctRank.Some? then
      if correctRank.value == index + 1 then
        ItemView(Correct, "bg-green-500 text-white", correctRank.value, !isSubmitted)
      else if Abs(correctRank.value - (index + 1)) <= 1 then
        ItemView(Close, "bg-yellow-400 text-gray-800", correctRank.value, !isSubmitted)
      else
        ItemView(Incorrect, "bg-red-400 text-white", correctRank.value, !isSubmitted)
    else
      ItemView(Neutral, "bg-indigo-100 text-indigo-700", index + 1, !isSubmitted)
  }
}
