/** Hidden `.desktop` files: the fixed template `create_desktop_file` writes,
    and `try_to_create_desktop_file`, which reports each entry once on the
    console (through `print_buffer`) and writes the file unless the run only
    pretends. */
module DesktopEntry {
  import opened PyStrings

  /** One call of `try_to_create_desktop_file`: the file name (without
      directory and extension), the display name, the app id, the window
      class and whether the entry comes from a launch-option fix. */
  datatype DesktopSpec = DesktopSpec(
    fileName: string, appName: string, appId: string, wmClass: string, launchOptionFix: bool)

  /** `HIDDEN_DESKTOP_FILES_DIR + "/" + filename + ".desktop"`. */
  function DesktopPath(dir: string, fileName: string): string
  {
    dir + "/" + fileName + ".desktop"
  }

  /** The lines of the desktop entry, one per key. */
  function TemplateLines(appName: string, appId: string, wmClass: string): seq<string>
  {
    [ "[Desktop Entry]",
      "Type=Application",
      "Name=" + appName,
      "Icon=steam_icon_" + appId,
      "Exec=steam steam://rungameid/" + appId,
      "Terminal=false",
      "StartupWMClass=" + wmClass,
      "NoDisplay=true" ]
  }

  /** The text `create_desktop_file` writes: the template's lines joined by
      line breaks, with no trailing line break.  When no field holds a line
      break, reading the file back line by line gives exactly the eight
      template lines: the name, the icon and launch command for the app id,
      and the class. */
  function DesktopFileContent(appName: string, appId: string, wmClass: string): (r: string)
    ensures '\n' !in appName && '\n' !in appId && '\n' !in wmClass ==>
              Split(r, '\n') == TemplateLines(appName, appId, wmClass)
  {
    var lines := TemplateLines(appName, appId, wmClass);
    assert '\n' !in appName && '\n' !in appId && '\n' !in wmClass ==> Split(Join(lines, '\n'), '\n') == lines by {
      if '\n' !in appName && '\n' !in appId && '\n' !in wmClass {
        SplitOfJoin(lines, '\n');
      }
    }
    Join(lines, '\n')
  }

  /** `"%7s %s - %s%s" % (game, marker, game_name, path)`: the report line,
      with the full path only in verbose mode. */
  function ReportLine(spec: DesktopSpec, dir: string, verbose: bool): string
  {
    PadLeft(spec.appId, 7) + " " + (if spec.launchOptionFix then "*" else " ") + " - " + spec.appName
    + (if verbose then " (" + DesktopPath(dir, spec.fileName) + ")" else "")
  }

  /** A report line starts with the app id right-aligned in seven columns,
      then a space and the launch-option marker. */
  lemma ReportLineLayout(spec: DesktopSpec, dir: string, verbose: bool)
    ensures var id := PadLeft(spec.appId, 7);
            var r := ReportLine(spec, dir, verbose);
            && |id| + 2 <= |r| && r[..|id|] == id && r[|id|] == ' '
            && r[|id| + 1] == if spec.launchOptionFix then '*' else ' '
  {
    var id := PadLeft(spec.appId, 7);
    var marker := if spec.launchOptionFix then "*" else " ";
    var rest := " - " + spec.appName + (if verbose then " (" + DesktopPath(dir, spec.fileName) + ")" else "");
    var tail := " " + marker + rest;
    var r := ReportLine(spec, dir, verbose);
    assert r == id + tail;
    assert r[..|id|] == id;
    assert r[|id|] == tail[0] == ' ';
    assert r[|id| + 1] == tail[1] == marker[0];
  }

  /** The same game reported with and without the launch-option marker
      gives two different lines, so both are printed. */
  lemma MarkerSeparatesLines(spec: DesktopSpec, dir: string, verbose: bool)
    ensures ReportLine(spec.(launchOptionFix := true), dir, verbose)
         != ReportLine(spec.(launchOptionFix := false), dir, verbose)
  {
    ReportLineLayout(spec.(launchOptionFix := true), dir, verbose);
    ReportLineLayout(spec.(launchOptionFix := false), dir, verbose);
  }

  /** Outside verbose mode the line names neither the file nor the class,
      so two aliases of one game that share a display name are reported
      once. */
  lemma QuietLineIgnoresFile(a: DesktopSpec, b: DesktopSpec, dir: string)
    requires a.appId == b.appId && a.appName == b.appName && a.launchOptionFix == b.launchOptionFix
    ensures ReportLine(a, dir, false) == ReportLine(b, dir, false)
  {
  }

  /** A report line that is not yet in the buffer is appended (and printed);
      one that is, is suppressed. */
  function Report(buffer: seq<string>, line: string): (r: seq<string>)
    ensures line in r && buffer <= r
    ensures forall l :: l in r ==> l in buffer || l == line
    ensures line in buffer <==> r == buffer
  {
    if line in buffer then buffer else buffer + [line]
  }

  predicate NoDuplicates(lines: seq<string>)
  {
    forall i, j :: 0 <= i < j < |lines| ==> lines[i] != lines[j]
  }

  /** The buffer never holds a line twice. */
  lemma ReportKeepsDistinct(buffer: seq<string>, line: string)
    requires NoDuplicates(buffer)
    ensures NoDuplicates(Report(buffer, line))
  {
  }

  /** Reporting the same line again changes nothing. */
  lemma ReportIdempotent(buffer: seq<string>, line: string)
    ensures Report(Report(buffer, line), line) == Report(buffer, line)
  {
  }

  /** The files written by one call: the path maps to the rendered template,
      and nothing is written when pretending. */
  function Write(files: map<string, string>, spec: DesktopSpec, dir: string, pretend: bool): (r: map<string, string>)
    ensures pretend ==> r == files
    ensures !pretend ==> r.Keys == files.Keys + {DesktopPath(dir, spec.fileName)}
    ensures !pretend ==> r[DesktopPath(dir, spec.fileName)] == DesktopFileContent(spec.appName, spec.appId, spec.wmClass)
    ensures forall p :: p in files && p != DesktopPath(dir, spec.fileName) ==> p in r && r[p] == files[p]
  {
    if pretend then files
    else files[DesktopPath(dir, spec.fileName) := DesktopFileContent(spec.appName, spec.appId, spec.wmClass)]
  }

  /** Writing the same entry twice leaves the same files as writing it once:
      files are overwritten by name. */
  lemma WriteIdempotent(files: map<string, string>, spec: DesktopSpec, dir: string, pretend: bool)
    ensures Write(Write(files, spec, dir, pretend), spec, dir, pretend) == Write(files, spec, dir, pretend)
  {
  }

  /** `print_buffer` after a sequence of calls. */
  function ReportAll(buffer: seq<string>, specs: seq<DesktopSpec>, dir: string, verbose: bool): seq<string>
    decreases |specs|
  {
    if specs == [] then buffer
    else Report(ReportAll(buffer, specs[..|specs| - 1], dir, verbose), ReportLine(specs[|specs| - 1], dir, verbose))
  }

  /** The desktop files after a sequence of calls. */
  function WriteAll(files: map<string, string>, specs: seq<DesktopSpec>, dir: string, pretend: bool): map<string, string>
    decreases |specs|
  {
    if specs == [] then files
    else Write(WriteAll(files, specs[..|specs| - 1], dir, pretend), specs[|specs| - 1], dir, pretend)
  }

  /** The report line of call `i` of a run. */
  predicate ReportedBy(l: string, specs: seq<DesktopSpec>, dir: string, verbose: bool)
  {
    exists i :: 0 <= i < |specs| && l == ReportLine(specs[i], dir, verbose)
  }

  /** Over a run, the buffer keeps its earlier lines, stays free of
      duplicates, and gains exactly the report lines of the calls. */
  lemma ReportAllLines(buffer: seq<string>, specs: seq<DesktopSpec>, dir: string, verbose: bool)
    requires NoDuplicates(buffer)
    ensures buffer <= ReportAll(buffer, specs, dir, verbose)
    ensures NoDuplicates(ReportAll(buffer, specs, dir, verbose))
    ensures forall l :: l in ReportAll(buffer, specs, dir, verbose) <==> l in buffer || ReportedBy(l, specs, dir, verbose)
  {
    ReportAllKeeps(buffer, specs, dir, verbose);
    forall l ensures l in ReportAll(buffer, specs, dir, verbose) <==> l in buffer || ReportedBy(l, specs, dir, verbose) {
      ReportAllHas(buffer, specs, dir, verbose, l);
    }
  }

  lemma {:induction false} ReportAllKeeps(buffer: seq<string>, specs: seq<DesktopSpec>, dir: string, verbose: bool)
    requires NoDuplicates(buffer)
    ensures buffer <= ReportAll(buffer, specs, dir, verbose)
    ensures NoDuplicates(ReportAll(buffer, specs, dir, verbose))
    decreases |specs|
  {
    if specs != [] {
      var init := specs[..|specs| - 1];
      ReportAllKeeps(buffer, init, dir, verbose);
      ReportKeepsDistinct(ReportAll(buffer, init, dir, verbose), ReportLine(specs[|specs| - 1], dir, verbose));
    }
  }

  lemma {:induction false} ReportAllHas(buffer: seq<string>, specs: seq<DesktopSpec>, dir: string, verbose: bool, l: string)
    ensures l in ReportAll(buffer, specs, dir, verbose) <==> l in buffer || ReportedBy(l, specs, dir, verbose)
    decreases |specs|
  {
    if specs != [] {
      var init := specs[..|specs| - 1];
      var line := ReportLine(specs[|specs| - 1], dir, verbose);
      ReportAllHas(buffer, init, dir, verbose, l);
      assert ReportAll(buffer, specs, dir, verbose) == Report(ReportAll(buffer, init, dir, verbose), line);
      ReportedByLast(l, specs, dir, verbose);
    }
  }

  /** The calls of a run report the lines of all but the last call, and the
      last call's line. */
  lemma ReportedByLast(l: string, specs: seq<DesktopSpec>, dir: string, verbose: bool)
    requires specs != []
    ensures ReportedBy(l, specs, dir, verbose) <==>
              ReportedBy(l, specs[..|specs| - 1], dir, verbose) || l == ReportLine(specs[|specs| - 1], dir, verbose)
  {
    var init := specs[..|specs| - 1];
    if ReportedBy(l, init, dir, verbose) {
      var i :| 0 <= i < |init| && l == ReportLine(init[i], dir, verbose);
      assert specs[i] == init[i];
    }
    if ReportedBy(l, specs, dir, verbose) {
      var i :| 0 <= i < |specs| && l == ReportLine(specs[i], dir, verbose);
      if i < |init| {
        assert init[i] == specs[i];
      }
    }
  }

  /** The paths of the calls of a run. */
  function PathsOf(specs: seq<DesktopSpec>, dir: string): set<string>
  {
    set i | 0 <= i < |specs| :: DesktopPath(dir, specs[i].fileName)
  }

  lemma PathsOfLast(specs: seq<DesktopSpec>, dir: string)
    requires specs != []
    ensures PathsOf(specs, dir) == PathsOf(specs[..|specs| - 1], dir) + {DesktopPath(dir, specs[|specs| - 1].fileName)}
  {
    var init := specs[..|specs| - 1];
    forall p | p in PathsOf(specs, dir)
      ensures p in PathsOf(init, dir) + {DesktopPath(dir, specs[|specs| - 1].fileName)}
    {
      var i :| 0 <= i < |specs| && p == DesktopPath(dir, specs[i].fileName);
      if i < |init| {
        assert init[i] == specs[i];
      }
    }
    forall p | p in PathsOf(init, dir)
      ensures p in PathsOf(specs, dir)
    {
      var i :| 0 <= i < |init| && p == DesktopPath(dir, init[i].fileName);
      assert specs[i] == init[i];
    }
  }

  /** A pretend run writes nothing; otherwise the run adds exactly the
      paths of its calls. */
  lemma {:induction false} WriteAllPaths(files: map<string, string>, specs: seq<DesktopSpec>, dir: string, pretend: bool)
    ensures pretend ==> WriteAll(files, specs, dir, pretend) == files
    ensures !pretend ==> WriteAll(files, specs, dir, pretend).Keys == files.Keys + PathsOf(specs, dir)
    decreases |specs|
  {
    if specs != [] {
      WriteAllPaths(files, specs[..|specs| - 1], dir, pretend);
      PathsOfLast(specs, dir);
    }
  }

  /** A run split in two is the second part run from where the first
      ended. */
  lemma {:induction false} RunsAppend(buffer: seq<string>, files: map<string, string>,
                                      xs: seq<DesktopSpec>, ys: seq<DesktopSpec>,
                                      dir: string, pretend: bool, verbose: bool)
    ensures ReportAll(buffer, xs + ys, dir, verbose) == ReportAll(ReportAll(buffer, xs, dir, verbose), ys, dir, verbose)
    ensures WriteAll(files, xs + ys, dir, pretend) == WriteAll(WriteAll(files, xs, dir, pretend), ys, dir, pretend)
    decreases |ys|
  {
    if ys == [] {
      assert xs + ys == xs;
    } else {
      assert (xs + ys)[..|xs + ys| - 1] == xs + ys[..|ys| - 1];
      RunsAppend(buffer, files, xs, ys[..|ys| - 1], dir, pretend, verbose);
    }
  }

  /** `print_buffer` and the files `try_to_create_desktop_file` has written. */
  class Emitter {
    var printBuffer: seq<string>
    var files: map<string, string>
    const dir: string
    const pretend: bool
    const verbose: bool

    constructor (dir: string, pretend: bool, verbose: bool)
      ensures printBuffer == [] && files == map[]
      ensures this.dir == dir && this.pretend == pretend && this.verbose == verbose
    {
      printBuffer := [];
      files := map[];
      this.dir := dir;
      this.pretend := pretend;
      this.verbose := verbose;
    }

    /** `try_to_create_desktop_file(filename, app_name, app_id, wm_class, lo_fix)`. */
    method TryToCreateDesktopFile(spec: DesktopSpec)
      modifies this
      ensures printBuffer == Report(old(printBuffer), ReportLine(spec, dir, verbose))
      ensures files == Write(old(files), spec, dir, pretend)
    {
      var line := ReportLine(spec, dir, verbose);
      if line !in printBuffer {
        printBuffer := printBuffer + [line];
      }
      if !pretend {
        CreateDesktopFile(spec.fileName, spec.appName, spec.appId, spec.wmClass);
      }
    }

    /** The calls of `try_to_create_desktop_file` for one game, in order. */
    method TryToCreateDesktopFiles(specs: seq<DesktopSpec>)
      modifies this
      ensures printBuffer == ReportAll(old(printBuffer), specs, dir, verbose)
      ensures files == WriteAll(old(files), specs, dir, pretend)
    {
      ghost var buffer0, files0 := printBuffer, files;
      for k := 0 to |specs|
        invariant printBuffer == ReportAll(buffer0, specs[..k], dir, verbose)
        invariant files == WriteAll(files0, specs[..k], dir, pretend)
      {
        assert specs[..k + 1][..k] == specs[..k];
        TryToCreateDesktopFile(specs[k]);
      }
      assert specs[..|specs|] == specs;
    }

    /** `create_desktop_file(filename, app_name, app_id, wm_class)`. */
    method CreateDesktopFile(fileName: string, appName: string, appId: string, wmClass: string)
      modifies this
      ensures printBuffer == old(printBuffer)
      ensures files == old(files)[DesktopPath(dir, fileName) := DesktopFileContent(appName, appId, wmClass)]
    {
      files := files[DesktopPath(dir, fileName) := DesktopFileContent(appName, appId, wmClass)];
    }
  }
}
