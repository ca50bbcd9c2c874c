/** Where the title letters rest, and which letter bodies the pointer is
    over. Letters are laid out in one row at a third of the viewport's
    height, centred as a block of equal pitches. */
module LetterLayout {
  import opened Common

  /** The title whose letters are laid out, one body per character. */
  const Name: string := "Joseph Gutierrez"

  const LetterWidth: real := 32.0
  const LetterHeight: real := 48.0
  const LetterSpacing: real := 32.0

  /** Distance between the centres of neighbouring letters. */
  const Pitch: real := LetterWidth + LetterSpacing

  /** Width of the block: one pitch per letter. */
  function TotalWidth(count: nat): real {
    (count as real) * Pitch
  }

  /** Left edge of the block. */
  function StartX(count: nat, vp: Viewport): real {
    vp.width / 2.0 - TotalWidth(count) / 2.0
  }

  /** The rest position of every letter, or none when rendering without a
      window (on the server). */
  function LetterPositions(count: nat, window: Option<Viewport>): (ps: seq<Point>)
    ensures window.None? ==> ps == []
    ensures window.Some? ==> |ps| == count
    // every letter sits on the same row, a third of the way down
    ensures window.Some? ==> forall i :: 0 <= i < |ps| ==> 3.0 * ps[i].y == window.value.height
    // neighbours are exactly one pitch (64 pixels) apart
    ensures forall i :: 0 < i < |ps| ==> ps[i].x - ps[i - 1].x == 64.0
    // the block [left edge of the first letter, + total width] is centred on the viewport
    ensures window.Some? && count > 0 ==>
      (ps[0].x - LetterWidth / 2.0) + TotalWidth(count) / 2.0 == window.value.width / 2.0
  {
    match window
    case None => []
    case Some(vp) =>
      var ps := seq(count, i requires 0 <= i < count =>
        Point(StartX(count, vp) + (i as real) * Pitch + LetterWidth / 2.0, vp.height / 3.0));
      assert count > 0 ==> ps[0].x == StartX(count, vp) + LetterWidth / 2.0;
      ps
  }

  /** The block includes the spacing after the last letter, so the letters
      themselves sit half a spacing (16 pixels) left of the viewport centre:
      the midpoint of the first and last letter centres is width/2 - 16. */
  lemma LettersSitLeftOfCentre(count: nat, vp: Viewport)
    requires count > 0
    ensures var ps := LetterPositions(count, Some(vp));
      (ps[0].x + ps[count - 1].x) / 2.0 == vp.width / 2.0 - LetterSpacing / 2.0
  {
  }

  /** The letter a pointer is over: strictly inside its box, so a pointer
      exactly on an edge is outside. */
  predicate UnderPointer(body: Point, mouse: Point) {
    && mouse.x > body.x - LetterWidth / 2.0
    && mouse.x < body.x + LetterWidth / 2.0
    && mouse.y > body.y - LetterHeight / 2.0
    && mouse.y < body.y + LetterHeight / 2.0
  }

  /** The letter bodies a pointer move pushes: those of `bodies` (the
      dynamic letter bodies, by index, at their current positions) whose box
      strictly contains the pointer. */
  function Pushed(bodies: map<int, Point>, mouse: Point): (r: set<int>)
    ensures forall i :: i in r <==>
      i in bodies && Abs(mouse.x - bodies[i].x) < LetterWidth / 2.0 && Abs(mouse.y - bodies[i].y) < LetterHeight / 2.0
  {
    set i | i in bodies && UnderPointer(bodies[i], mouse)
  }

  /** A pointer on any of the four edges of a letter's box does not push it. */
  lemma EdgeDoesNotPush(bodies: map<int, Point>, i: int, mouse: Point)
    requires i in bodies
    requires || mouse.x == bodies[i].x - LetterWidth / 2.0
             || mouse.x == bodies[i].x + LetterWidth / 2.0
             || mouse.y == bodies[i].y - LetterHeight / 2.0
             || mouse.y == bodies[i].y + LetterHeight / 2.0
    ensures i !in Pushed(bodies, mouse)
  {
  }
}
