/**
 * The media player's settings defaults, USB mount-path composition, media-file
 * listing and the new-disk check of its install timer (MediaPlayer.py).
 */
module MediaPlayer {
  import W = Wrappers
  import opened PyValues
  import opened FileNames
  import opened Launch
  import S = Settings

  const SETTINGS_SCREEN: string := "Screen"
  const SETTINGS_WIDTH: string := "Width"
  const SETTINGS_HEIGHT: string := "Height"
  const SETTINGS_USE_USB: string := "UseUSB"
  const SETTINGS_USB_PATH: string := "USBPath"
  const SETTINGS_MEDIA_PATH: string := "MediaPath"
  const SETTINGS_DISPLAY_POSITION: string := "DisplayPosition"
  const SETTINGS_POSITION: string := "SettingsPosition"
  const MEDIA_PATH: string := "MediaPlayer"
  const MEDIA_EXTENSIONS: seq<string> := [".avi", ".mp4", ".wmv"]
  const DEFAULT_USB_PATH: string := [Sep] + "MediaPlayer"
  const DEFAULT_DISPLAY_POSITION: Json :=
    JObj(map[S.POSITION_LEFT := JInt(0), S.POSITION_TOP := JInt(0), S.POSITION_WIDTH := JInt(100), S.POSITION_HEIGHT := JInt(70)])

  /** The keys LoadSettings guarantees. */
  const SETTINGS_KEYS: set<string> :=
    {SETTINGS_SCREEN, SETTINGS_MEDIA_PATH, SETTINGS_USE_USB, SETTINGS_USB_PATH, SETTINGS_DISPLAY_POSITION, SETTINGS_POSITION}

  /** `{'Width': w, 'Height': h}` of the screen. */
  function ScreenValue(width: nat, height: nat): Json
  {
    JObj(map[SETTINGS_WIDTH := JInt(width), SETTINGS_HEIGHT := JInt(height)])
  }

  /**
   * The settings window's default rectangle: a quarter of the screen in from the
   * top-left corner, half the screen in size (`int(x / 4)` and `int(x / 2)` floor
   * for a non-negative size).
   */
  function SettingsWindowDefault(width: nat, height: nat): Json
  {
    JObj(map[S.POSITION_LEFT := JInt(width / 4), S.POSITION_TOP := JInt(height / 4),
             S.POSITION_WIDTH := JInt(width / 2), S.POSITION_HEIGHT := JInt(height / 2)])
  }

  /** `if key not in d: d[key] = value` */
  function SetDefault(d: map<string, Json>, key: string, value: Json): (r: map<string, Json>)
    ensures r.Keys == d.Keys + {key}
    ensures forall k :: k in d ==> r[k] == d[k]
    ensures key !in d ==> r[key] == value
  {
    if key in d then d else d[key := value]
  }

  /** `s.lstrip(c)` */
  function StripLeading(s: string, c: char): (r: string)
    ensures |r| <= |s| && r == s[|s| - |r|..]
    ensures forall i :: 0 <= i < |s| - |r| ==> s[i] == c
    ensures r == [] || r[0] != c
  {
    if |s| > 0 && s[0] == c then StripLeading(s[1..], c) else s
  }

  /** `s.rstrip(c)` */
  function StripTrailing(s: string, c: char): (r: string)
    ensures r <= s
    ensures forall i :: |r| <= i < |s| ==> s[i] == c
    ensures r == [] || r[|r| - 1] != c
  {
    if |s| > 0 && s[|s| - 1] == c then StripTrailing(s[..|s| - 1], c) else s
  }

  /** `s.strip(c)`: neither end of the result is c; StripIsSlice says only c's were removed. */
  function Strip(s: string, c: char): (r: string)
    ensures r == [] || (r[0] != c && r[|r| - 1] != c)
    ensures |r| <= |s|
  {
    StripTrailing(StripLeading(s, c), c)
  }

  /** What Strip returns is a slice of s, and everything cut off at either end is c. */
  lemma StripIsSlice(s: string, c: char)
    ensures exists i, j :: 0 <= i <= j <= |s| && Strip(s, c) == s[i..j] &&
              (forall k :: 0 <= k < i ==> s[k] == c) && (forall k :: j <= k < |s| ==> s[k] == c)
  {
    var lead := StripLeading(s, c);
    var r := StripTrailing(lead, c);
    StripBothEnds(s, c, lead, r);
    var i, j := |s| - |lead|, |s| - |lead| + |r|;
    assert 0 <= i <= j <= |s| && Strip(s, c) == s[i..j];
  }

  /**
   * Where lead is s with c's cut off its front and r is lead with c's cut off its
   * back, r is the slice s[i..i + |r|], with only c's either side.
   */
  lemma StripBothEnds(s: string, c: char, lead: string, r: string)
    requires |lead| <= |s| && lead == s[|s| - |lead|..] && forall k :: 0 <= k < |s| - |lead| ==> s[k] == c
    requires r <= lead && forall k :: |r| <= k < |lead| ==> lead[k] == c
    ensures var i := |s| - |lead|;
      && 0 <= i <= i + |r| <= |s| && r == s[i..i + |r|]
      && (forall k :: 0 <= k < i ==> s[k] == c) && (forall k :: i + |r| <= k < |s| ==> s[k] == c)
  {
    var i := |s| - |lead|;
    forall k | 0 <= k < |r|
      ensures r[k] == s[i + k]
    {
      assert r[k] == lead[k] == s[i..][k];
    }
    forall k | i + |r| <= k < |s|
      ensures s[k] == c
    {
      assert s[k] == lead[k - i];
    }
  }

  /** The mount point with a separator appended only when it lacks one. */
  function MountDir(point: string): (d: string)
    ensures point <= d && |d| <= |point| + 1
    ensures EndsWith(d, [Sep])
    ensures EndsWith(point, [Sep]) ==> d == point
  {
    if EndsWith(point, [Sep]) then point else point + [Sep]
  }

  /**
   * One entry of GetMediaPaths: the mount directory, the USB folder without
   * separators at either end, and a closing separator.
   */
  function ComposePath(point: string, usbPath: string): (p: string)
    ensures EndsWith(p, [Sep])
  {
    MountDir(point) + Strip(usbPath, Sep) + [Sep]
  }

  /** The three parts of a composed path: the mount directory, the stripped folder, the separator. */
  lemma ComposePathParts(point: string, usbPath: string)
    ensures var p := ComposePath(point, usbPath);
            && MountDir(point) <= p && |p| == |MountDir(point)| + |Strip(usbPath, Sep)| + 1
            && p[|MountDir(point)|..|p| - 1] == Strip(usbPath, Sep)
  {
    var p := ComposePath(point, usbPath);
    assert p == MountDir(point) + Strip(usbPath, Sep) + [Sep];
  }

  /**
   * GetMediaPaths: one composed path per mount point, as a set. `.strip` on a
   * USBPath that is not a str raises (None) as soon as there is a mount point.
   */
  method GetMediaPaths(points: seq<string>, usbPath: Json) returns (r: W.Option<set<string>>)
    ensures r.None? <==> |points| > 0 && !usbPath.JStr?
    ensures r.Some? ==> forall x :: x in r.value <==>
              exists i :: 0 <= i < |points| && usbPath.JStr? && x == ComposePath(points[i], usbPath.s)
    ensures r.Some? ==> forall x :: x in r.value ==> EndsWith(x, [Sep])
  {
    var res: seq<string> := [];
    for i := 0 to |points|
      invariant i > 0 ==> usbPath.JStr?
      invariant |res| == i
      invariant usbPath.JStr? ==> forall j :: 0 <= j < i ==> res[j] == ComposePath(points[j], usbPath.s)
    {
      var point := points[i];
      if !EndsWith(point, [Sep]) {
        point := point + [Sep];
      }
      if !usbPath.JStr? {
        return W.None;
      }
      assert point == MountDir(points[i]);
      var entry := point + Strip(usbPath.s, Sep) + [Sep];
      assert entry == ComposePath(points[i], usbPath.s);
      ghost var before := res;
      res := res + [entry];
      forall j | 0 <= j <= i
        ensures res[j] == ComposePath(points[j], usbPath.s)
      {
        if j < i {
          assert res[j] == before[j];
        }
      }
    }
    if !usbPath.JStr? {
      return W.Some({});
    }
    var paths := set x | x in res;
    PathSetMembers(paths, res, points, usbPath.s);
    r := W.Some(paths);
  }

  /** The set of a list of composed paths holds exactly the composed paths, each ending in the separator. */
  lemma PathSetMembers(paths: set<string>, res: seq<string>, points: seq<string>, usbPath: string)
    requires paths == set y | y in res
    requires |res| == |points| && forall j :: 0 <= j < |res| ==> res[j] == ComposePath(points[j], usbPath)
    ensures forall x :: x in paths <==> exists i :: 0 <= i < |points| && x == ComposePath(points[i], usbPath)
    ensures forall x :: x in paths ==> EndsWith(x, [Sep])
  {
    forall x | x in paths
      ensures exists i :: 0 <= i < |points| && x == ComposePath(points[i], usbPath)
    {
      var j :| 0 <= j < |res| && res[j] == x;
    }
  }

  /** Each name placed under `dir + sep`. */
  function UnderDir(dir: string, names: seq<string>): (paths: seq<string>)
    ensures |paths| == |names|
    ensures forall i :: 0 <= i < |names| ==> paths[i] == dir + [Sep] + names[i]
  {
    seq(|names|, i requires 0 <= i < |names| => dir + [Sep] + names[i])
  }

  /**
   * GetMediaFiles: nothing for a missing directory (listing None); otherwise the
   * names with a media extension, in listing order, each under `mediaDir + sep`.
   */
  function GetMediaFiles(mediaDir: string, exts: seq<string>, listing: W.Option<seq<string>>): (files: seq<string>)
    ensures listing.None? ==> files == []
    ensures listing.Some? ==> forall n :: n in listing.value && HasExtension(n, exts) ==> mediaDir + [Sep] + n in files
    ensures listing.Some? ==> forall i :: 0 <= i < |files| ==>
              exists n :: n in listing.value && HasExtension(n, exts) && files[i] == mediaDir + [Sep] + n
    ensures listing.Some? ==> |files| <= |listing.value|
  {
    match listing
    case None => []
    case Some(names) =>
      var kept := FilterByExtension(names, exts);
      var files := UnderDir(mediaDir, kept);
      assert forall n :: n in kept ==> mediaDir + [Sep] + n in files by {
        forall n | n in kept ensures mediaDir + [Sep] + n in files {
          var i :| 0 <= i < |kept| && kept[i] == n;
          assert files[i] == mediaDir + [Sep] + n;
        }
      }
      assert forall i :: 0 <= i < |files| ==> kept[i] in kept;
      files
  }

  /** Listing order is kept: the files of two concatenated listings are concatenated. */
  lemma MediaFilesKeepListingOrder(mediaDir: string, exts: seq<string>, a: seq<string>, b: seq<string>)
    ensures GetMediaFiles(mediaDir, exts, W.Some(a + b)) ==
            GetMediaFiles(mediaDir, exts, W.Some(a)) + GetMediaFiles(mediaDir, exts, W.Some(b))
  {
    FilterKeepsOrder(a, b, exts);
    var ka := FilterByExtension(a, exts);
    var kb := FilterByExtension(b, exts);
    assert GetMediaFiles(mediaDir, exts, W.Some(a + b)) == UnderDir(mediaDir, ka + kb);
    assert UnderDir(mediaDir, ka + kb) == UnderDir(mediaDir, ka) + UnderDir(mediaDir, kb);
  }

  /**
   * `[Disk for Disk in newDisks - oldDisks if os.path.isdir(Disk)]`, in some
   * iteration order of the set: each new disk that is a directory, once.
   */
  method NewMediaDirs(newDisks: set<string>, oldDisks: set<string>, isDir: string -> bool) returns (dirs: seq<string>)
    ensures forall d :: d in dirs <==> d in newDisks && d !in oldDisks && isDir(d)
    ensures forall i, j :: 0 <= i < j < |dirs| ==> dirs[i] != dirs[j]
  {
    var rest := newDisks - oldDisks;
    dirs := [];
    while rest != {}
      invariant rest <= newDisks - oldDisks
      invariant forall d :: d in dirs <==> d in newDisks - oldDisks && d !in rest && isDir(d)
      invariant forall i, j :: 0 <= i < j < |dirs| ==> dirs[i] != dirs[j]
      decreases rest
    {
      var d :| d in rest;
      if isDir(d) {
        dirs := dirs + [d];
      }
      rest := rest - {d};
    }
  }

  /** What a reload does, in order. */
  datatype MediaAction = StopPlay | DeleteCurrentMediaFiles | LoadMediaFromDisk(Disk: string) | StartPlay

  /** The newly seen paths that are directories. */
  ghost function Arrived(newDisks: set<string>, oldDisks: set<string>, isDir: string -> bool): set<string>
  {
    set d | d in newDisks && d !in oldDisks && isDir(d)
  }

  /**
   * A reload: stop, delete the current files, copy from each of the given
   * directories exactly once, then start again.
   */
  ghost predicate IsReload(plan: seq<MediaAction>, dirs: set<string>)
  {
    && |plan| >= 3
    && plan[0] == StopPlay && plan[1] == DeleteCurrentMediaFiles && plan[|plan| - 1] == StartPlay
    && (forall i :: 2 <= i < |plan| - 1 ==> plan[i].LoadMediaFromDisk? && plan[i].Disk in dirs)
    && (forall d :: d in dirs ==> LoadMediaFromDisk(d) in plan)
    && (forall i, j :: 2 <= i < j < |plan| - 1 ==> plan[i] != plan[j])
  }

  /**
   * The body of `if Disks:` in InstallMediaThreadRun: nothing for no directories,
   * otherwise the reload over them, in the order given.
   */
  method ReloadPlan(dirs: seq<string>) returns (plan: seq<MediaAction>)
    requires forall i, j :: 0 <= i < j < |dirs| ==> dirs[i] != dirs[j]
    ensures dirs == [] ==> plan == []
    ensures dirs != [] ==> IsReload(plan, set d | d in dirs) && |plan| == |dirs| + 3
    ensures dirs != [] ==> forall i :: 0 <= i < |dirs| ==> plan[i + 2] == LoadMediaFromDisk(dirs[i])
  {
    if dirs == [] {
      return [];
    }
    plan := [StopPlay, DeleteCurrentMediaFiles];
    for i := 0 to |dirs|
      invariant |plan| == i + 2 && plan[0] == StopPlay && plan[1] == DeleteCurrentMediaFiles
      invariant forall j :: 0 <= j < i ==> plan[j + 2] == LoadMediaFromDisk(dirs[j])
    {
      plan := plan + [LoadMediaFromDisk(dirs[i])];
    }
    plan := plan + [StartPlay];
    assert forall i :: 2 <= i < |plan| - 1 ==> plan[i] == LoadMediaFromDisk(dirs[i - 2]);
    forall d | d in dirs
      ensures LoadMediaFromDisk(d) in plan
    {
      var j :| 0 <= j < |dirs| && dirs[j] == d;
      assert plan[j + 2] == LoadMediaFromDisk(d);
    }
  }

  /**
   * The settings after LoadSettings: the loaded dict, Screen overwritten, the other
   * defaults filled in where missing (`home` is what `expanduser` puts for `~`).
   */
  function LoadedSettings(loaded: map<string, Json>, width: nat, height: nat, home: string): map<string, Json>
  {
    var screen := loaded[SETTINGS_SCREEN := ScreenValue(width, height)];
    var media := SetDefault(screen, SETTINGS_MEDIA_PATH, JStr(home + [Sep] + MEDIA_PATH));
    var useUsb := SetDefault(media, SETTINGS_USE_USB, JBool(true));
    var usbPath := SetDefault(useUsb, SETTINGS_USB_PATH, JStr(DEFAULT_USB_PATH));
    var display := SetDefault(usbPath, SETTINGS_DISPLAY_POSITION, DEFAULT_DISPLAY_POSITION);
    SetDefault(display, SETTINGS_POSITION, SettingsWindowDefault(width, height))
  }

  /** Every guaranteed key is present, and no key beyond the loaded ones and those. */
  lemma LoadedSettingsKeys(loaded: map<string, Json>, width: nat, height: nat, home: string)
    ensures LoadedSettings(loaded, width, height, home).Keys == loaded.Keys + SETTINGS_KEYS
  {
  }

  /** Screen is always the current screen; every other loaded value is kept as it was. */
  lemma LoadedSettingsKeepsSaved(loaded: map<string, Json>, width: nat, height: nat, home: string)
    ensures LoadedSettings(loaded, width, height, home)[SETTINGS_SCREEN] == ScreenValue(width, height)
    ensures forall k :: k in loaded && k != SETTINGS_SCREEN ==> LoadedSettings(loaded, width, height, home)[k] == loaded[k]
  {
  }

  /** A missing setting gets its default. */
  lemma LoadedSettingsDefaults(loaded: map<string, Json>, width: nat, height: nat, home: string)
    ensures var s := LoadedSettings(loaded, width, height, home);
      && (SETTINGS_MEDIA_PATH !in loaded ==> s[SETTINGS_MEDIA_PATH] == JStr(home + [Sep] + MEDIA_PATH))
      && (SETTINGS_USE_USB !in loaded ==> s[SETTINGS_USE_USB] == JBool(true))
      && (SETTINGS_USB_PATH !in loaded ==> s[SETTINGS_USB_PATH] == JStr(DEFAULT_USB_PATH))
      && (SETTINGS_DISPLAY_POSITION !in loaded ==> s[SETTINGS_DISPLAY_POSITION] == DEFAULT_DISPLAY_POSITION)
      && (SETTINGS_POSITION !in loaded ==> s[SETTINGS_POSITION] == SettingsWindowDefault(width, height))
  {
  }

  /** The media player's state between timer ticks: its settings, the disks last seen, its work mode. */
  class MediaPlayer {
    const ScreenWidth: nat
    const ScreenHeight: nat
    var Settings: map<string, Json>
    var OldDisks: set<string>
    var Mode: WorkMode

    ghost predicate Loaded()
      reads this`Settings
    {
      SETTINGS_KEYS <= Settings.Keys
    }

    /**
     * __init__: loads the settings, then normalises the work mode so that exactly one
     * of run and settings is chosen. No disk has been seen yet: onRun's first scan
     * (StartMediaWatch) fills OldDisks.
     */
    constructor (loaded: map<string, Json>, screenWidth: nat, screenHeight: nat, home: string, argv: seq<string>)
      ensures ScreenWidth == screenWidth && ScreenHeight == screenHeight && Loaded()
      ensures Settings == LoadedSettings(loaded, screenWidth, screenHeight, home) && OldDisks == {}
      ensures Mode.Run != Mode.Settings
      ensures Mode.Run <==> ON_RUN in argv && ON_SETTINGS !in argv
    {
      ScreenWidth := screenWidth;
      ScreenHeight := screenHeight;
      Settings := loaded;
      OldDisks := {};
      Mode := SelectWorkMode(argv);
      new;
      LoadSettings(loaded, home);
    }

    /**
     * LoadSettings: the loaded dict with Screen replaced by the current screen size,
     * then each default filled in where its key is missing; LoadedSettings and the
     * lemmas after it say what that gives.
     */
    method LoadSettings(loaded: map<string, Json>, home: string)
      modifies this`Settings
      ensures Settings == LoadedSettings(loaded, ScreenWidth, ScreenHeight, home)
      ensures Loaded()
    {
      Settings := loaded;
      Settings := Settings[SETTINGS_SCREEN := ScreenValue(ScreenWidth, ScreenHeight)];
      Settings := SetDefault(Settings, SETTINGS_MEDIA_PATH, JStr(home + [Sep] + MEDIA_PATH));
      Settings := SetDefault(Settings, SETTINGS_USE_USB, JBool(true));
      Settings := SetDefault(Settings, SETTINGS_USB_PATH, JStr(DEFAULT_USB_PATH));
      Settings := SetDefault(Settings, SETTINGS_DISPLAY_POSITION, DEFAULT_DISPLAY_POSITION);
      Settings := SetDefault(Settings, SETTINGS_POSITION, SettingsWindowDefault(ScreenWidth, ScreenHeight));
      LoadedSettingsKeys(loaded, ScreenWidth, ScreenHeight, home);
    }

    /** onRun's `self.oldDisks = self.GetMediaPaths()`; unchanged where that raises. */
    method StartMediaWatch(points: seq<string>) returns (ok: bool)
      requires Loaded()
      modifies this`OldDisks
      ensures ok <==> !(|points| > 0 && !Settings[SETTINGS_USB_PATH].JStr?)
      ensures !ok ==> OldDisks == old(OldDisks)
      ensures ok ==> forall x :: x in OldDisks <==>
                exists i :: 0 <= i < |points| && Settings[SETTINGS_USB_PATH].JStr? &&
                            x == ComposePath(points[i], Settings[SETTINGS_USB_PATH].s)
    {
      var paths := GetMediaPaths(points, Settings[SETTINGS_USB_PATH]);
      ok := paths.Some?;
      if ok {
        OldDisks := paths.value;
      }
    }

    /**
     * InstallMediaThreadRun: a reload happens exactly when some newly seen path is a
     * directory, and afterwards the disks seen are the new ones either way. Where
     * composing the paths raises (None), the tick changes nothing.
     */
    method InstallMediaThreadRun(points: seq<string>, isDir: string -> bool) returns (effects: W.Option<seq<MediaAction>>)
      requires Loaded()
      modifies this`OldDisks
      ensures effects.None? <==> |points| > 0 && !Settings[SETTINGS_USB_PATH].JStr?
      ensures effects.None? ==> OldDisks == old(OldDisks)
      ensures effects.Some? ==> forall x :: x in OldDisks <==>
                exists i :: 0 <= i < |points| && Settings[SETTINGS_USB_PATH].JStr? &&
                            x == ComposePath(points[i], Settings[SETTINGS_USB_PATH].s)
      ensures effects.Some? ==>
                (effects.value == [] <==> forall d :: d in OldDisks && d !in old(OldDisks) ==> !isDir(d))
      ensures effects.Some? && effects.value != [] ==>
                IsReload(effects.value, Arrived(OldDisks, old(OldDisks), isDir))
    {
      var newDisks := GetMediaPaths(points, Settings[SETTINGS_USB_PATH]);
      if newDisks.None? {
        return W.None;
      }
      var dirs := NewMediaDirs(newDisks.value, OldDisks, isDir);
      assert dirs != [] ==> dirs[0] in dirs;
      forall x
        ensures x in (set d | d in dirs) <==> x in Arrived(newDisks.value, OldDisks, isDir)
      {
      }
      assert (set d | d in dirs) == Arrived(newDisks.value, OldDisks, isDir);
      var plan := ReloadPlan(dirs);
      OldDisks := newDisks.value;
      effects := W.Some(plan);
    }
  }
}
