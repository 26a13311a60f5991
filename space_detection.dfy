/** `useSpaceDetection`: how much room a drawer has in its opening direction,
    in pixels and in root-font rems, and whether it should jump straight to
    its largest breakpoint (less than 500px of room). The window size and
    the parsed root font size are parameters. */
module SpaceDetection {
  import opened Common
  import opened DragToClose

  datatype SpaceResult = SpaceResult(shouldAutoJump: bool, availableSpace: real, availableSpaceRems: real)

  /** The result before any effect has run, and whenever detection is off. */
  const Initial: SpaceResult := SpaceResult(false, 0.0, 0.0)

  const AutoJumpPixels: real := 500.0
  const FallbackFontSize: real := 16.0

  /** `getAvailableSpace`: the window height for a top or bottom drawer, the
      width for a left or right one. */
  function AvailableSpace(p: Position, innerWidth: real, innerHeight: real): (a: real)
    ensures IsHorizontal(p) ==> a == innerWidth
    ensures !IsHorizontal(p) ==> a == innerHeight
  {
    match p
    case Top => innerHeight
    case Bottom => innerHeight
    case Left => innerWidth
    case Right => innerWidth
  }

  /** `parseFloat(fontSize) || 16`: `None` stands for a text that parses to
      NaN. NaN and 0 fall back to 16; any other number is kept. */
  function RootFontSize(parsed: Option<real>): (f: real)
    ensures f != 0.0
    ensures parsed.Some? && parsed.value != 0.0 ==> f == parsed.value
    ensures parsed.None? || parsed.value == 0.0 ==> f == FallbackFontSize
  {
    if parsed.Some? && parsed.value != 0.0 then parsed.value else FallbackFontSize
  }

  /** `pxToRems`. */
  function PxToRems(pixels: real, parsedFont: Option<real>): real
  {
    pixels / RootFontSize(parsedFont)
  }

  /** `calculateSpaceDetection`. */
  function Calculate(enabled: bool, p: Position, innerWidth: real, innerHeight: real,
                     parsedFont: Option<real>): (r: SpaceResult)
    ensures !enabled ==> r == Initial
    ensures enabled ==> r.availableSpace == AvailableSpace(p, innerWidth, innerHeight)
    ensures enabled ==> r.availableSpaceRems * RootFontSize(parsedFont) == r.availableSpace
  {
    if !enabled then Initial
    else
      var space := AvailableSpace(p, innerWidth, innerHeight);
      var rems := PxToRems(space, parsedFont);
      SpaceResult(rems < PxToRems(AutoJumpPixels, parsedFont), space, rems)
  }

  /** Both sides of the comparison are divided by the same font size, so for
      a positive size auto-jump holds exactly when fewer than 500 pixels are
      available, whatever the font. */
  lemma AutoJumpBelow500(p: Position, innerWidth: real, innerHeight: real, parsedFont: Option<real>)
    requires RootFontSize(parsedFont) > 0.0
    ensures Calculate(true, p, innerWidth, innerHeight, parsedFont).shouldAutoJump <==>
      AvailableSpace(p, innerWidth, innerHeight) < AutoJumpPixels
  {
    var f := RootFontSize(parsedFont);
    var a := AvailableSpace(p, innerWidth, innerHeight);
    DivisionKeepsOrder(a, AutoJumpPixels, f);
  }

  /** With the fallback font (the text did not parse, or parsed to 0) the
      room in rems is the room in pixels over 16. */
  lemma FallbackFontIs16(p: Position, innerWidth: real, innerHeight: real, parsedFont: Option<real>)
    requires parsedFont.None? || parsedFont.value == 0.0
    ensures Calculate(true, p, innerWidth, innerHeight, parsedFont).availableSpaceRems * 16.0 ==
      AvailableSpace(p, innerWidth, innerHeight)
    ensures Calculate(true, p, innerWidth, innerHeight, parsedFont).shouldAutoJump <==>
      AvailableSpace(p, innerWidth, innerHeight) < AutoJumpPixels
  {
    AutoJumpBelow500(p, innerWidth, innerHeight, parsedFont);
  }

  lemma DivisionKeepsOrder(a: real, b: real, f: real)
    requires f > 0.0
    ensures a / f < b / f <==> a < b
  {
    assert a == (a / f) * f && b == (b / f) * f;
    if a < b {
      assert (b / f - a / f) * f == b - a;
    } else {
      assert (a / f - b / f) * f == a - b;
    }
  }

  /** The hook's stored `result`. The window size and root font size in
      effect at each event are passed in. */
  class SpaceDetector {
    const position: Position
    const enabled: bool
    var result: SpaceResult

    /** Detection that is switched off never leaves the initial result. */
    ghost predicate Valid()
      reads this
    {
      !enabled ==> result == Initial
    }

    constructor (position: Position, enabled: bool)
      ensures this.position == position && this.enabled == enabled
      ensures result == Initial && Valid()
    {
      this.position := position;
      this.enabled := enabled;
      result := Initial;
    }

    /** The first effect on mount, and its `resize` / `orientationchange`
      listener: recompute when enabled. */
    method WindowChanged(innerWidth: real, innerHeight: real, parsedFont: Option<real>)
      requires Valid()
      modifies this
      ensures result == if enabled then Calculate(true, position, innerWidth, innerHeight, parsedFont)
                        else old(result)
      ensures Valid()
    {
      if !enabled {
        return;
      }
      result := Calculate(enabled, position, innerWidth, innerHeight, parsedFont);
    }

    /** The second effect, on a change of `isOpen`: recompute when the
      drawer is open and detection enabled. */
    method OpenChanged(isOpen: bool, innerWidth: real, innerHeight: real, parsedFont: Option<real>)
      requires Valid()
      modifies this
      ensures result == if isOpen && enabled then Calculate(true, position, innerWidth, innerHeight, parsedFont)
                        else old(result)
      ensures Valid()
    {
      if isOpen && enabled {
        result := Calculate(enabled, position, innerWidth, innerHeight, parsedFont);
      }
    }
  }
}
