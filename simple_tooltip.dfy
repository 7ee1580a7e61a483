/** The chart tooltip (src/components/ui/SimpleToolTip.tsx): hidden unless the
    chart marks it active with a non-empty payload; otherwise the count of the
    first payload entry with a singular or plural noun. */
module SimpleTooltip {
  import opened Common

  /** `typeLabel: "Answers" | "Games"` */
  datatype TypeLabel = Answers | Games

  function LabelText(t: TypeLabel): string
  {
    match t
    case Answers => "Answers"
    case Games => "Games"
  }

  /** One payload entry; a missing `value` is `None`. */
  datatype PayloadItem = PayloadItem(value: Option<int>)

  /** What the tooltip shows: the chart label (`label`, here `heading`), the count and the noun. */
  datatype TooltipView = TooltipView(heading: Option<string>, count: int, noun: string)

  /** `SimpleTooltip({ active, payload, label, typeLabel })`; `None` renders nothing.
      An absent `active` flag is `None`, as is an absent payload. */
  function Tooltip(active: Option<bool>, payload: Option<seq<PayloadItem>>, heading: Option<string>,
                   typeLabel: TypeLabel): (r: Option<TooltipView>)
    ensures r.None? <==> active != Some(true) || payload.None? || |payload.value| == 0
    ensures r.Some? ==> r.value.heading == heading
    ensures r.Some? ==> r.value.count == (if payload.value[0].value.Some? then payload.value[0].value.value else 0)
  {
    if active != Some(true) || payload.None? || |payload.value| == 0 then None
    else
      var count := if payload.value[0].value.Some? then payload.value[0].value.value else 0;
      var text := LabelText(typeLabel);
      var plural := if count == 1 then text[..|text| - 1] else text;
      Some(TooltipView(heading, count, plural))
  }

  /** A count of one drops the final `s` ("Answer", "Game"); any other count
      keeps the label as given ("Answers", "Games"). */
  lemma NounAgreesWithCount(active: Option<bool>, payload: Option<seq<PayloadItem>>, heading: Option<string>,
                            typeLabel: TypeLabel)
    requires Tooltip(active, payload, heading, typeLabel).Some?
    ensures var v := Tooltip(active, payload, heading, typeLabel).value;
      && (v.count == 1 ==> v.noun + "s" == LabelText(typeLabel))
      && (v.count == 1 ==> v.noun == "Answer" || v.noun == "Game")
      && (v.count != 1 ==> v.noun == LabelText(typeLabel))
      && (v.count != 1 ==> v.noun == "Answers" || v.noun == "Games")
  {
    var v := Tooltip(active, payload, heading, typeLabel).value;
    if v.count == 1 {
      match typeLabel {
        case Answers => assert v.noun == "Answer";
        case Games => assert v.noun == "Game";
      }
    }
  }
}
