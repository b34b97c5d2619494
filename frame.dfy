/** The frame-size lesson: a record is sent between two TaskManagers and
    "explodes" when it is larger than the message size limit. */
module FrameSize {

  /** The message size limit, in MB. */
  const LimitMb: int := 10

  // Range and initial position of the size slider, in MB.
  const MinSizeMb: int := 1
  const MaxSizeMb: int := 20
  const InitialSizeMb: int := 5

  /** Smallest side of the packet box, in pixels. */
  const MinBoxSide: int := 40

  /** A record of `size` MB is refused: strictly larger than the limit, so
      11 MB is the smallest refused size, and exactly the refused records are
      drawn wider than a 10 MB one. */
  predicate Explodes(size: int)
    ensures Explodes(size) <==> size >= LimitMb + 1
    ensures Explodes(size) <==> PacketWidth(size) > PacketWidth(LimitMb)
  {
    size > LimitMb
  }

  function Max(a: int, b: int): int { if a < b then b else a }

  /** The pixel width of the packet box. */
  function PacketWidth(size: int): (w: int)
    ensures w >= MinBoxSide && w >= 10 * size
    ensures w == MinBoxSide || w == 10 * size
  {
    Max(MinBoxSide, size * 10)
  }

  /** The pixel height of the packet box. */
  function PacketHeight(size: int): (h: int)
    ensures h >= MinBoxSide && h >= 5 * size
    ensures h == MinBoxSide || h == 5 * size
  {
    Max(MinBoxSide, size * 5)
  }

  /** The limit itself is accepted; one more MB is refused. */
  lemma ExplodesThreshold(size: int)
    ensures !Explodes(LimitMb) && Explodes(LimitMb + 1)
    ensures MinSizeMb <= size <= MaxSizeMb ==> (Explodes(size) <==> size >= 11)
    ensures !Explodes(InitialSizeMb)
  {
  }

  /** The box grows with the record: it stays at the minimum up to 4 MB wide
      and 8 MB high, and grows strictly beyond; over the slider's range it is
      at most 200 by 100 pixels. */
  lemma PacketBoxGrowth(a: int, b: int)
    ensures a <= b ==> PacketWidth(a) <= PacketWidth(b) && PacketHeight(a) <= PacketHeight(b)
    ensures PacketWidth(a) == MinBoxSide <==> a <= 4
    ensures PacketHeight(a) == MinBoxSide <==> a <= 8
    ensures a <= MaxSizeMb ==> PacketWidth(a) <= 200 && PacketHeight(a) <= 100
  {
  }

  /** The lesson's component state. */
  class FrameLesson {
    var frameSize: int
    var exploded: bool

    constructor ()
      ensures frameSize == InitialSizeMb && !exploded
    {
      frameSize := InitialSizeMb;
      exploded := false;
    }

    /** The Send Record button. */
    method CheckFrame()
      modifies this`exploded
      ensures frameSize == old(frameSize)
      ensures exploded <==> Explodes(frameSize)
      ensures old(exploded) == Explodes(old(frameSize)) ==> exploded == old(exploded)
    {
      if frameSize > LimitMb {
        exploded := true;
      } else {
        exploded := false;
      }
    }

    /** Moving the size slider. */
    method Slide(v: int)
      requires MinSizeMb <= v <= MaxSizeMb
      modifies this
      ensures frameSize == v && !exploded
    {
      frameSize := v;
      exploded := false;
    }
  }
}
