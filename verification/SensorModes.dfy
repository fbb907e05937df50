/** The modes the sensor profiles offer, and what the conversion does to frames of them. */
module SensorModes {
  import opened Words
  import opened CameraModel
  import Bayer

  /** The mode tables of the profiles; every profile uses one of them. */
  const TABLES: seq<seq<Mode>> := [
    [Mode(4608, 2592), Mode(2304, 1296), Mode(1536, 864)],
    [Mode(4056, 3040), Mode(2028, 1520), Mode(1332, 990)],
    [Mode(3280, 2464), Mode(1640, 1232), Mode(1280, 720)],
    [Mode(3840, 2160), Mode(1920, 1080), Mode(1280, 720)],
    [Mode(2592, 1520), Mode(1920, 1080), Mode(1280, 720)],
    [Mode(2688, 1520), Mode(1920, 1080), Mode(1280, 720)],
    [Mode(2592, 1944), Mode(1296, 972), Mode(640, 480)],
    [Mode(2048, 1536), Mode(1280, 960), Mode(640, 480)],
    [Mode(1920, 1080), Mode(1280, 720), Mode(640, 480)],
    [Mode(4656, 3496), Mode(2328, 1748), Mode(1920, 1080)],
    [Mode(5280, 3956), Mode(2640, 1978), Mode(1920, 1080)],
    [Mode(5328, 4608), Mode(2664, 2304), Mode(1920, 1080)],
    [Mode(6224, 4168), Mode(3112, 2084), Mode(1920, 1080)],
    [Mode(3008, 3008), Mode(1504, 1504), Mode(1280, 720)]
  ]

  predicate IsProfile(modes: seq<Mode>) {
    modes in TABLES
  }

  lemma ProfilesAreEven(modes: seq<Mode>, i: nat)
    requires IsProfile(modes) && i < |modes|
    ensures modes[i].width > 0 && modes[i].width % 2 == 0 && modes[i].height > 0
  {
    var t :| 0 <= t < |TABLES| && TABLES[t] == modes;
    assert |TABLES| == 14 && |TABLES[t]| == 3;
  }

  lemma ProfileHasModes(modes: seq<Mode>)
    requires IsProfile(modes)
    ensures modes != []
  {
    var t :| 0 <= t < |TABLES| && TABLES[t] == modes;
    assert |TABLES[t]| == 3;
  }

  /** The mode of the requested size, or the profile's first; always one of the profile, so of even width. */
  method FindMode(modes: seq<Mode>, width: nat, height: nat) returns (m: Mode)
    requires IsProfile(modes)
    ensures m in modes && m.width % 2 == 0
    ensures Mode(width, height) in modes ==> m == Mode(width, height)
    ensures Mode(width, height) !in modes ==> m == modes[0]
  {
    ProfileHasModes(modes);
    var i := 0;
    while i < |modes|
      invariant i <= |modes| && forall j :: 0 <= j < i ==> modes[j] != Mode(width, height)
    {
      if modes[i].width == width && modes[i].height == height {
        ProfilesAreEven(modes, i);
        return modes[i];
      }
      i := i + 1;
    }
    ProfilesAreEven(modes, 0);
    m := modes[0];
  }

  function LayoutOf(f: Format): Bayer.Layout
    requires f != SRGGB10
  {
    match f
    case BGR32 => Bayer.BGR32
    case RGB32 => Bayer.RGB32
    case BGR24 => Bayer.BGR24
    case RGB24 => Bayer.RGB24
  }

  /** A source of the demanded size holds a whole frame of its layout, and a target of it the whole mosaic. */
  lemma {:induction false} DemandedSizesHoldTheFrame(f: Format, m: Mode, source: nat, target: nat)
    requires f != SRGGB10 && source >= SizeImage(f, m) && target >= FrameSize(m)
    ensures Bayer.Holds(LayoutOf(f), m.width, m.height, source)
    ensures 2 * Bayer.RowStart(m.height, m.width) <= target
  {
    var s := LayoutOf(f).stride;
    assert m.height * (m.width * s) == m.width * m.height * s;
    assert m.height * m.width == m.width * m.height;
  }

  /** In every mode a profile offers the kernel's frame is the tool's frame of the same image, pixel for pixel. */
  lemma {:induction false} KernelAgreesWithToolInEveryMode(
    modes: seq<Mode>, i: nat, f: Format, src: seq<byte>, rgb: seq<byte>, before: seq<u16>, frame: seq<u16>,
    raw: seq<u16>)
    requires IsProfile(modes) && i < |modes| && f != SRGGB10
    requires |src| >= SizeImage(f, modes[i]) && |rgb| >= SizeImage(RGB24, modes[i])
    requires
      var (l, w, h) := (LayoutOf(f), modes[i].width, modes[i].height);
      && Bayer.Holds(l, w, h, |src|) && Bayer.Holds(Bayer.RGB24, w, h, |rgb|)
      && Bayer.SameImage(l, src, Bayer.RGB24, rgb, w, h)
      && Bayer.KernelFrame(l, src, w, h, before, frame, h) && Bayer.ToolFrame(rgb, w, h, 0, raw, h, 0)
    ensures
      var (w, h) := (modes[i].width, modes[i].height);
      forall y :: 0 <= y < h ==>
        && Bayer.RowStart(y, w) + w <= |frame| && Bayer.RowStart(y, w) + w <= |raw|
        && Bayer.RowOf(frame, y, w) == Bayer.RowOf(raw, y, w)
  {
    hide Bayer.Holds, Bayer.SameImage, Bayer.KernelFrame, Bayer.ToolFrame, Bayer.RowOf, SizeImage;
    ProfilesAreEven(modes, i);
    var (l, w, h) := (LayoutOf(f), modes[i].width, modes[i].height);
    forall y | 0 <= y < h
      ensures
        && Bayer.RowStart(y, w) + w <= |frame| && Bayer.RowStart(y, w) + w <= |raw|
        && Bayer.RowOf(frame, y, w) == Bayer.RowOf(raw, y, w)
    {
      forall x | 0 <= x < w
        ensures Bayer.RowStart(y, w) + w <= |frame| && Bayer.RowStart(y, w) + w <= |raw|
        ensures Bayer.RowOf(frame, y, w)[x] == Bayer.RowOf(raw, y, w)[x]
      {
        Bayer.KernelAgreesWithTool(l, src, rgb, w, h, before, frame, raw, y, x);
      }
      Bayer.KernelAgreesWithTool(l, src, rgb, w, h, before, frame, raw, y, 0);
    }
  }
}
