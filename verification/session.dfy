/**
 * The terminal session (`Rltk`) as the Amethyst back-end sees it: consoles
 * with their fonts, the per-frame input fields, timing and the quit flag.
 */
module Session {
  import opened Types
  import opened Atlas
  import opened ConsoleTiles

  /** A key code reported by the input handler. */
  type KeyCode = nat

  /** The two console kinds. Only a simple console (a dense grid of cells,
      row-major, row 0 at the top) is bridged; the cells of a sparse console
      never cross the bridge, so only its size is kept. */
  datatype Console =
    | SimpleConsole(width: uint32, height: uint32, tiles: seq<Tile>)
    | SparseConsole(width: uint32, height: uint32)
  {
    /** `get_char_size`. */
    function CharSize(): (uint32, uint32)
    {
      (width, height)
    }

    /** The copy of a simple console that the bridge publishes. */
    function Snapshot(): ConsoleSnapshot
      requires SimpleConsole?
    {
      ConsoleSnapshot(CharSize(), tiles)
    }
  }

  /** A console together with the index of the font it is drawn with. */
  datatype DisplayConsole = DisplayConsole(console: Console, fontIndex: nat)

  /** The session record. The back-end handle is reduced to its window title;
      the frame rate (a float) and the shader list (empty here) are left out. */
  datatype Rltk = Rltk(
    windowTitle: string,
    widthPixels: uint32,
    heightPixels: uint32,
    fonts: seq<Font>,
    consoles: seq<DisplayConsole>,
    frameTimeMs: nat,
    activeConsole: nat,
    key: Option<KeyCode>,
    mousePos: (int, int),
    leftClick: bool,
    shift: bool,
    control: bool,
    alt: bool,
    webButton: Option<string>,
    quitting: bool,
    postScanlines: bool,
    postScreenburn: bool)

  /** No key, click or modifier is reported. */
  predicate InputCleared(s: Rltk)
  {
    s.key.None? && !s.leftClick && !s.shift && !s.control && !s.alt
  }

  /** `init_raw`: a session for a window of the given size and title, with no
      fonts or consoles yet, no input reported, and not quitting. */
  function InitRaw(widthPixels: uint32, heightPixels: uint32, windowTitle: string): (s: Rltk)
    ensures s.windowTitle == windowTitle
    ensures s.widthPixels == widthPixels && s.heightPixels == heightPixels
    ensures s.fonts == [] && s.consoles == []
    ensures InputCleared(s) && s.mousePos == (0, 0) && s.webButton.None?
    ensures !s.quitting && !s.postScanlines && !s.postScreenburn
    ensures s.frameTimeMs == 0 && s.activeConsole == 0
  {
    Rltk(windowTitle, widthPixels, heightPixels, [], [], 0, 0,
         None, (0, 0), false, false, false, false, None, false, false, false)
  }

  /** Number of simple consoles among `consoles`. */
  function SimpleCount(consoles: seq<DisplayConsole>): nat
  {
    if |consoles| == 0 then 0
    else SimpleCount(consoles[..|consoles| - 1])
         + (if consoles[|consoles| - 1].console.SimpleConsole? then 1 else 0)
  }

  /** The snapshots `update` inserts, one per simple console, in order. */
  function SimpleSnapshots(consoles: seq<DisplayConsole>): (r: seq<ConsoleSnapshot>)
    ensures |r| == SimpleCount(consoles)
    ensures forall j :: 0 <= j < |consoles| && consoles[j].console.SimpleConsole? ==>
              consoles[j].console.Snapshot() in r
  {
    if |consoles| == 0 then []
    else
      var init := consoles[..|consoles| - 1];
      var last := consoles[|consoles| - 1].console;
      assert forall j :: 0 <= j < |init| ==> init[j] == consoles[j];
      SimpleSnapshots(init) + (if last.SimpleConsole? then [last.Snapshot()] else [])
  }

  /** Every published snapshot is the copy of one of the simple consoles: a
      sparse console never crosses the bridge. */
  lemma {:induction false} SnapshotsComeFromSimpleConsoles(consoles: seq<DisplayConsole>, k: nat)
    requires k < |SimpleSnapshots(consoles)|
    ensures exists j :: 0 <= j < |consoles| && consoles[j].console.SimpleConsole?
                        && SimpleSnapshots(consoles)[k] == consoles[j].console.Snapshot()
  {
    var init := consoles[..|consoles| - 1];
    var last := consoles[|consoles| - 1];
    var earlier := SimpleSnapshots(init);
    if k < |earlier| {
      SnapshotsComeFromSimpleConsoles(init, k);
      var j :| 0 <= j < |init| && init[j].console.SimpleConsole?
               && earlier[k] == init[j].console.Snapshot();
      assert consoles[j] == init[j];
    } else {
      assert last.console.SimpleConsole? && SimpleSnapshots(consoles)[k] == last.console.Snapshot();
    }
  }

  /** The snapshots keep the console order: simple console j's snapshot is
      at the position given by the number of simple consoles before it. */
  lemma {:induction false} SnapshotPosition(consoles: seq<DisplayConsole>, j: nat)
    requires j < |consoles| && consoles[j].console.SimpleConsole?
    ensures SimpleCount(consoles[..j]) < |SimpleSnapshots(consoles)|
    ensures SimpleSnapshots(consoles)[SimpleCount(consoles[..j])] == consoles[j].console.Snapshot()
  {
    var init := consoles[..|consoles| - 1];
    if j < |init| {
      assert init[..j] == consoles[..j];
      assert init[j] == consoles[j];
      SnapshotPosition(init, j);
    } else {
      assert init == consoles[..j];
    }
  }

  /** `SnapshotPosition` for every simple console at once. */
  lemma SnapshotsInConsoleOrder(consoles: seq<DisplayConsole>)
    ensures forall j :: 0 <= j < |consoles| && consoles[j].console.SimpleConsole? ==>
              && SimpleCount(consoles[..j]) < |SimpleSnapshots(consoles)|
              && SimpleSnapshots(consoles)[SimpleCount(consoles[..j])] == consoles[j].console.Snapshot()
  {
    forall j | 0 <= j < |consoles| && consoles[j].console.SimpleConsole? {
      SnapshotPosition(consoles, j);
    }
  }

  /** `snap` is the copy of one of the simple consoles among `consoles`. */
  ghost predicate FromSimpleConsole(consoles: seq<DisplayConsole>, snap: ConsoleSnapshot)
  {
    exists j :: 0 <= j < |consoles| && consoles[j].console.SimpleConsole?
                && snap == consoles[j].console.Snapshot()
  }

  /** `SnapshotsComeFromSimpleConsoles` for every snapshot at once. */
  lemma SnapshotsAreSimpleConsoles(consoles: seq<DisplayConsole>)
    ensures forall k :: 0 <= k < |SimpleSnapshots(consoles)| ==>
              FromSimpleConsole(consoles, SimpleSnapshots(consoles)[k])
  {
    forall k | 0 <= k < |SimpleSnapshots(consoles)| {
      SnapshotsComeFromSimpleConsoles(consoles, k);
    }
  }
}
