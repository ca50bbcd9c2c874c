/** The shared hover slot read by the cursor follower: one process-wide
    value written by whichever navigation element is hovered. */
module BlobHover {
  import opened Common

  datatype HoverState = HoverState(hovered: bool, hoveredText: string, targetPos: Option<Point>)

  /** The provider's initial state: nothing hovered, no label, no target. */
  function Initial(): (s: HoverState)
    ensures !s.hovered && s.hoveredText == "" && s.targetPos.None?
  {
    HoverState(false, "", None)
  }

  /** `setHovered(h, text?, pos?)`: every field is overwritten. A missing
      label and an empty one both become ""; a missing position becomes
      no target. */
  function SetHovered(s: HoverState, h: bool, text: Option<string>, pos: Option<Point>): (r: HoverState)
    ensures r.hovered == h
    ensures r.hoveredText == "" <==> text.None? || text.value == ""
    ensures r.hoveredText != "" ==> text == Some(r.hoveredText)
    ensures r.targetPos == pos
  {
    HoverState(h, if text.Some? then text.value else "", pos)
  }

  /** Nothing of an earlier hover survives a later call: the result does
      not depend on the state it replaces. */
  lemma LastCallWins(s1: HoverState, s2: HoverState, h: bool, text: Option<string>, pos: Option<Point>)
    ensures SetHovered(s1, h, text, pos) == SetHovered(s2, h, text, pos)
  {
  }

  /** `setHovered(false)` returns the slot to its initial state. */
  lemma UnhoverResets(s: HoverState)
    ensures SetHovered(s, false, None, None) == Initial()
  {
  }

  const OutsideProvider: string := "useBlobHover must be used within BlobHoverProvider"

  /** `useBlobHover`: reading the slot outside a provider throws. */
  function UseBlobHover(context: Option<HoverState>): (r: Result<HoverState, string>)
    ensures r.Err? <==> context.None?
    ensures r.Ok? ==> r.value == context.value
    ensures r.Err? ==> r.error == OutsideProvider
  {
    match context
    case None => Err(OutsideProvider)
    case Some(s) => Ok(s)
  }
}
