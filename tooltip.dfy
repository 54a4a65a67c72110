/** `Tooltip.tip_pos_calc` (src/gui.py): where a tooltip goes, given the
    screen size, the label's requested size and the mouse position (the
    widget queries of the source, passed in as numbers). */
module Tooltip {

  /** The default offset of the tooltip from the pointer, and the default
      padding (left, top, right, bottom) around the label. */
  const DefaultTipDelta: (int, int) := (10, 6)
  const DefaultPad: (int, int, int, int) := (6, 3, 6, 3)

  /** The padded size of the tooltip. */
  function TipWidth(reqWidth: int, pad: (int, int, int, int)): int { pad.0 + reqWidth + pad.2 }
  function TipHeight(reqHeight: int, pad: (int, int, int, int)): int { pad.1 + reqHeight + pad.3 }

  /** The tooltip goes below and right of the pointer. If it would cross
      the right edge it moves to the left of the pointer; if it would cross
      the bottom edge it moves above the pointer; if it then sticks out at
      the top it is pinned to y = 0. */
  function TipPosCalc(sWidth: int, sHeight: int, reqWidth: int, reqHeight: int,
                      mouseX: int, mouseY: int,
                      tipDelta: (int, int), pad: (int, int, int, int)): (r: (int, int))
    ensures r.1 >= 0
    ensures mouseX + tipDelta.0 + TipWidth(reqWidth, pad) <= sWidth ==> r.0 == mouseX + tipDelta.0
    ensures mouseX + tipDelta.0 + TipWidth(reqWidth, pad) > sWidth ==> r.0 == mouseX - tipDelta.0 - TipWidth(reqWidth, pad)
    ensures mouseY + tipDelta.1 + TipHeight(reqHeight, pad) <= sHeight ==>
      r.1 == if mouseY + tipDelta.1 < 0 then 0 else mouseY + tipDelta.1
    ensures mouseY + tipDelta.1 + TipHeight(reqHeight, pad) > sHeight ==>
      r.1 == if mouseY - tipDelta.1 - TipHeight(reqHeight, pad) < 0 then 0 else mouseY - tipDelta.1 - TipHeight(reqHeight, pad)
    // Horizontally: with the pointer on screen, a tooltip that fits on one
    // side of the pointer lies wholly on screen.
    ensures 0 <= mouseX <= sWidth && tipDelta.0 >= 0 && TipWidth(reqWidth, pad) >= 0
      && (mouseX + tipDelta.0 + TipWidth(reqWidth, pad) <= sWidth || tipDelta.0 + TipWidth(reqWidth, pad) <= mouseX)
      ==> 0 <= r.0 && r.0 + TipWidth(reqWidth, pad) <= sWidth
    // Vertically likewise.
    ensures 0 <= mouseY <= sHeight && tipDelta.1 >= 0 && TipHeight(reqHeight, pad) >= 0
      && (mouseY + tipDelta.1 + TipHeight(reqHeight, pad) <= sHeight || tipDelta.1 + TipHeight(reqHeight, pad) <= mouseY)
      ==> 0 <= r.1 && r.1 + TipHeight(reqHeight, pad) <= sHeight
    // In the default placement the pointer is never covered.
    ensures tipDelta.0 > 0 && TipWidth(reqWidth, pad) >= 0 ==> mouseX < r.0 || r.0 + TipWidth(reqWidth, pad) < mouseX
  {
    var width := TipWidth(reqWidth, pad);
    var height := TipHeight(reqHeight, pad);
    var x1 := mouseX + tipDelta.0;
    var y1 := mouseY + tipDelta.1;
    var x2 := x1 + width;
    var y2 := y1 + height;
    var xDelta := if x2 - sWidth < 0 then 0 else x2 - sWidth;
    var yDelta := if y2 - sHeight < 0 then 0 else y2 - sHeight;
    var offscreen := (xDelta, yDelta) != (0, 0);
    var x1 := if offscreen && xDelta != 0 then mouseX - tipDelta.0 - width else x1;
    var y1 := if offscreen && yDelta != 0 then mouseY - tipDelta.1 - height else y1;
    var y1 := if y1 < 0 then 0 else y1;
    (x1, y1)
  }

  /** `tip_pos_calc` with its default offset and padding. */
  function TipPosDefault(sWidth: int, sHeight: int, reqWidth: int, reqHeight: int,
                         mouseX: int, mouseY: int): (r: (int, int))
    ensures r.1 >= 0
    ensures mouseX + 22 + reqWidth <= sWidth ==> r.0 == mouseX + 10
    ensures mouseX + 22 + reqWidth > sWidth ==> r.0 == mouseX - 22 - reqWidth
  {
    TipPosCalc(sWidth, sHeight, reqWidth, reqHeight, mouseX, mouseY, DefaultTipDelta, DefaultPad)
  }
}
