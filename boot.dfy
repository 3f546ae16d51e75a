/**
 * The kernel entry point's only work: writing the boot message into the
 * text-mode framebuffer, one character byte and one attribute byte per cell.
 */
module Boot {
  import opened VgatOut

  /** The boot message `b"Hello World!"`. */
  const Msg: seq<Byte> := [0x48, 0x65, 0x6c, 0x6c, 0x6f, 0x20, 0x57, 0x6f, 0x72, 0x6c, 0x64, 0x21]

  /** The attribute byte written beside every message character. */
  const MsgAttribute: Byte := 0xb

  /** The style that attribute stands for: light cyan on black, not blinking. */
  const MsgStyle: DisplayStyle := DisplayStyle(false, WithFgColor(LightCyan))

  /**
   * The framebuffer bytes after `msg` is written into `buf` from offset 0:
   * character `i` at offset `2i`, `attr` at offset `2i + 1`, the rest as before.
   */
  function Painted(buf: seq<Byte>, msg: seq<Byte>, attr: Byte): (r: seq<Byte>)
    requires 2 * |msg| <= |buf|
    ensures |r| == |buf|
    ensures forall i :: 0 <= i < |msg| ==> r[2 * i] == msg[i] && r[2 * i + 1] == attr
    ensures forall k :: 2 * |msg| <= k < |buf| ==> r[k] == buf[k]
    decreases |msg|
  {
    if msg == [] then buf
    else
      var n := |msg| - 1;
      Painted(buf, msg[..n], attr)[2 * n := msg[n]][2 * n + 1 := attr]
  }

  /**
   * The loop of `_start`: for each message byte `i`, store the byte at offset
   * `2i` and the attribute `0xb` at offset `2i + 1` of the framebuffer, which
   * holds the 80 x 25 cells of two bytes each.
   */
  method Start(vidBuf: array<Byte>)
    requires vidBuf.Length == 2 * DefaultCellCount()
    modifies vidBuf
    ensures vidBuf[..] == Painted(old(vidBuf[..]), Msg, MsgAttribute)
    ensures forall i :: 0 <= i < |Msg| ==> vidBuf[2 * i] == Msg[i] && vidBuf[2 * i + 1] == 0xb
    ensures forall k :: 2 * |Msg| <= k < vidBuf.Length ==> vidBuf[k] == old(vidBuf[k])
  {
    for i := 0 to |Msg|
      invariant vidBuf[..] == Painted(old(vidBuf[..]), Msg[..i], MsgAttribute)
    {
      assert Msg[..i + 1][..i] == Msg[..i];
      vidBuf[2 * i] := Msg[i];
      vidBuf[2 * i + 1] := MsgAttribute;
    }
    assert Msg[..|Msg|] == Msg;
  }

  /** The message has twelve bytes, so the loop writes 24 framebuffer bytes, well inside the buffer. */
  lemma MsgLength()
    ensures |Msg| == 12
    ensures 2 * |Msg| == 24 < 2 * DefaultCellCount()
  {
  }

  /**
   * No later iteration overwrites an earlier one: after the first `j`
   * characters are written, the bytes of every character `i < j` are still
   * the ones iteration `i` stored.
   */
  lemma NoOverwrite(buf: seq<Byte>, msg: seq<Byte>, attr: Byte, i: nat, j: nat)
    requires i < j <= |msg| && 2 * |msg| <= |buf|
    ensures Painted(buf, msg[..j], attr)[2 * i] == msg[i]
    ensures Painted(buf, msg[..j], attr)[2 * i + 1] == attr
  {
  }

  /** The attribute `0xb` is the packed byte of the message style: light cyan, black background, no blink. */
  lemma MsgAttributeDecodes()
    ensures StyleByte(MsgStyle) == MsgAttribute
    ensures ForegroundOf(MsgAttribute) == LightCyan
    ensures BackgroundOf(MsgAttribute) == Black
    ensures !Blinks(MsgAttribute)
  {
  }

  /**
   * Every (character, attribute) byte pair written by the loop is the cell
   * `VgatChar::new(Msg[i], MsgStyle)` would build.
   */
  lemma PaintedCells(buf: seq<Byte>)
    requires 2 * |Msg| <= |buf|
    ensures forall i :: 0 <= i < |Msg| ==>
      var cell := NewVgatChar(Msg[i], MsgStyle);
      Painted(buf, Msg, MsgAttribute)[2 * i] == cell.value
      && Painted(buf, Msg, MsgAttribute)[2 * i + 1] == cell.style
  {
  }
}
