/** The geometry reader of src/geometry_reader.cpp: the choice of reader from
    the file name, the token layout of .xyz files and the line structure of
    POSCAR/CONTCAR files. A file arrives as the sequence of lines getline
    yields; number conversion, the centre of mass and the existence test on
    the file system are parameters. */
module GeometryReading {
  import opened Wrappers
  import opened Text
  import opened Vectors

  // ---------------------------------------------------------------------
  // File names

  /** The number of characters up to and including the last c, or 0. */
  function LastAfter(s: string, c: char): (k: nat)
    ensures k <= |s|
    ensures k > 0 ==> s[k - 1] == c
    ensures forall i :: k <= i < |s| ==> s[i] != c
  {
    if s == [] then 0
    else if s[|s| - 1] == c then |s|
    else LastAfter(s[..|s| - 1], c)
  }

  /** std::filesystem::path::filename: the text after the last '/'. */
  function FileName(path: string): (name: string)
  {
    path[LastAfter(path, '/')..]
  }

  /** std::filesystem::path::extension of a file name: from the last '.' to
      the end; empty without a dot, when the only dot starts the name, and
      for "." and "..". */
  function Extension(name: string): (ext: string)
  {
    var k := LastAfter(name, '.');
    if k <= 1 || name == ".." then [] else name[k - 1..]
  }

  predicate StartsWith(s: string, prefix: string)
  {
    |prefix| <= |s| && s[..|prefix|] == prefix
  }

  /** The three readers read_file can choose. */
  datatype Format = Geo | Xyz | Poscar

  /** read_file's choice: the extension .geo or .xyz first, then a file name
      that begins with POSCAR or CONTCAR; None is the "Unknown file type"
      error. */
  function Dispatch(filename: string): (f: Option<Format>)
  {
    DispatchName(FileName(filename))
  }

  /** The choice made from the file name alone. */
  function DispatchName(name: string): (f: Option<Format>)
  {
    var ext := Extension(name);
    if ext == ".geo" then Some(Geo)
    else if ext == ".xyz" then Some(Xyz)
    else if PoscarName(name) then Some(Poscar)
    else None
  }

  /** A VASP structure file: the name begins with POSCAR or CONTCAR. */
  predicate PoscarName(name: string)
  {
    StartsWith(name, "POSCAR") || StartsWith(name, "CONTCAR")
  }

  /** The exception of read_file for a file that does not exist. */
  function CannotAccess(filename: string): ReadError
  {
    Thrown(RuntimeError("Cannot access file " + filename))
  }

  /** The exception of read_file for a name it cannot dispatch. */
  function UnknownFileType(filename: string): ReadError
  {
    Thrown(RuntimeError("Unknown file type: " + filename))
  }

  lemma LastAfterNone(s: string, c: char)
    requires forall i :: 0 <= i < |s| ==> s[i] != c
    ensures LastAfter(s, c) == 0
  {
  }

  lemma LastAfterSplit(prefix: string, c: char, suffix: string)
    requires forall i :: 0 <= i < |suffix| ==> suffix[i] != c
    ensures LastAfter(prefix + [c] + suffix, c) == |prefix| + 1
  {
    var s := prefix + [c] + suffix;
    var k := LastAfter(s, c);
    assert s[|prefix|] == c;
    if k < |prefix| + 1 {
      assert false;
    }
    if k > |prefix| + 1 {
      assert false;
    }
  }

  lemma FileNameOfName(dir: string, name: string)
    requires forall i :: 0 <= i < |name| ==> name[i] != '/'
    ensures FileName(name) == name
    ensures FileName(dir + "/" + name) == name
  {
    LastAfterNone(name, '/');
    assert dir + "/" + name == dir + ['/'] + name;
    LastAfterSplit(dir, '/', name);
    assert (dir + "/" + name)[|dir| + 1..] == name;
  }

  /** Only the file name counts: the directory part of the path is ignored. */
  lemma DispatchIgnoresDirectory(dir: string, name: string)
    requires forall i :: 0 <= i < |name| ==> name[i] != '/'
    ensures Dispatch(dir + "/" + name) == Dispatch(name)
  {
    FileNameOfName(dir, name);
  }

  lemma NoSlashIn(a: string, b: string)
    requires forall i :: 0 <= i < |a| ==> a[i] != '/'
    requires forall i :: 1 <= i < |b| ==> b[i] != '/'
    requires b != [] ==> b[0] != '/'
    ensures forall i :: 0 <= i < |a + b| ==> (a + b)[i] != '/'
  {
  }

  /** The extension of a name whose last dot begins ext. */
  lemma ExtensionAfterLastDot(stem: string, ext: string)
    requires stem != [] && |ext| >= 2 && ext[0] == '.'
    requires forall i :: 1 <= i < |ext| ==> ext[i] != '.'
    ensures Extension(stem + ext) == ext
  {
    var name := stem + ext;
    var suffix := ext[1..];
    assert ext == ['.'] + suffix;
    assert name == stem + ['.'] + suffix;
    LastAfterSplit(stem, '.', suffix);
    assert name[|stem|..] == ext;
  }

  lemma ByExtension(stem: string, ext: string)
    requires stem != [] && forall i :: 0 <= i < |stem| ==> stem[i] != '/'
    requires |ext| >= 2 && ext[0] == '.'
    requires forall i :: 1 <= i < |ext| ==> ext[i] != '.' && ext[i] != '/'
    ensures Dispatch(stem + ext) == DispatchName(stem + ext)
    ensures Extension(stem + ext) == ext
  {
    ExtensionAfterLastDot(stem, ext);
    NoSlashIn(stem, ext);
    FileNameOfName("", stem + ext);
  }

  /** A non-empty stem followed by .geo or .xyz selects that reader, whatever
      the stem says, so POSCAR.xyz is read as .xyz. */
  lemma DispatchByExtension(stem: string)
    requires stem != [] && forall i :: 0 <= i < |stem| ==> stem[i] != '/'
    ensures Dispatch(stem + ".geo") == Some(Geo)
    ensures Dispatch(stem + ".xyz") == Some(Xyz)
  {
    ByExtension(stem, ".geo");
    ByExtension(stem, ".xyz");
  }

  /** A name without dots is a POSCAR/CONTCAR file exactly when it begins
      with one of the two words, and is rejected otherwise. */
  lemma DispatchWithoutExtension(name: string)
    requires forall i :: 0 <= i < |name| ==> name[i] != '/' && name[i] != '.'
    ensures Dispatch(name) == Some(Poscar) <==> StartsWith(name, "POSCAR") || StartsWith(name, "CONTCAR")
    ensures Dispatch(name) != Some(Poscar) ==> Dispatch(name) == None
  {
    FileNameOfName("", name);
    LastAfterNone(name, '.');
  }

  /** The files the test suite loads. */
  lemma DispatchOfTestPoscar()
    ensures Dispatch("POSCAR") == Some(Poscar)
  {
    PlainName("POSCAR");
    assert StartsWith("POSCAR", "POSCAR");
    DispatchWithoutExtension("POSCAR");
  }

  lemma PlainName(name: string)
    requires name == "POSCAR" || name == "nonexistent_file"
    ensures forall i :: 0 <= i < |name| ==> name[i] != '/' && name[i] != '.'
  {
  }

  lemma DispatchOfTestXyz()
    ensures Dispatch("co_np.xyz") == Some(Xyz)
    ensures Dispatch("co_np.geo") == Some(Geo)
  {
    assert "co_np" + ".xyz" == "co_np.xyz";
    assert "co_np" + ".geo" == "co_np.geo";
    DispatchByExtension("co_np");
  }

  lemma DispatchOfTestMissing()
    ensures Dispatch("nonexistent_file") == None
  {
    var unknown := "nonexistent_file";
    PlainName(unknown);
    DispatchWithoutExtension(unknown);
    assert unknown[..6][0] == 'n' && unknown[..7][0] == 'n';
  }

  // ---------------------------------------------------------------------
  // What a read produces

  /** Conversions and numerics the model does not define: a decimal to a
      real (std::stod, boost::lexical_cast<double> and <float>), a decimal
      to an unsigned (boost::lexical_cast<unsigned int>), each failing with
      the exception the library throws, and the centre of mass. */
  datatype Numerics = Numerics(
    toReal: string -> Result<real, Exception>,
    toUnsigned: string -> Result<nat, Exception>,
    centre: seq<Vec3> -> Vec3)

  /** A read stops with an exception, or at an index past the end of a
      vector, which the source does not check. */
  datatype ReadError = Thrown(e: Exception) | OutOfBounds(what: string)

  /** The fields a reader fills. */
  datatype Geometry = Geometry(unitcell: Mat3, elements: seq<string>, positions: seq<Vec3>)

  /** A text file as std::getline sees it: its lines without their line
      ends, and whether the last line ends with a newline. */
  datatype TextFile = TextFile(lines: seq<string>, finalNewline: bool)

  /** What the getline calls of read_poscar past the end of the file leave in
      `line`. An empty file, or one whose last line ends with a newline, makes
      the first failing getline erase the string, and the later ones keep it
      empty. A last line without a newline sets end-of-file as it is read, so
      every later getline fails before erasing and the string keeps that
      line, as trimmed in place by the code after the calls that read it:
      read_poscar trims lines 1 to 6, so a last line 0 is trimmed from the
      second call on, a last line 1 to 6 from the first, a later one never. */
  function PastEnd(f: TextFile): (tail: seq<string>)
    ensures |tail| >= 1
  {
    var n := |f.lines|;
    if n == 0 || f.finalNewline then [""]
    else if n == 1 then [f.lines[0], Trim(f.lines[0])]
    else if n <= 7 then [Trim(f.lines[n - 1])]
    else [f.lines[n - 1]]
  }

  /** The strings that the successive getline calls of read_poscar leave in
      `line`: the file's lines, then the past-end values, the last of which
      every further call repeats. */
  function PoscarReads(f: TextFile): (got: seq<string>)
    ensures |got| > |f.lines| && got[..|f.lines|] == f.lines
  {
    f.lines + PastEnd(f)
  }

  /** Getline call k over the strings the calls leave; past their end the
      last one repeats. */
  function LineAt(got: seq<string>, k: nat): string
  {
    if k < |got| then got[k] else if got == [] then "" else got[|got| - 1]
  }

  /** Reading file line k gives that line; past the end, a file that ends
      with a newline gives "", and one whose last line, beyond the trimmed
      header, has no newline gives that last line again, on every call. */
  lemma PoscarLineAt(f: TextFile, k: nat)
    ensures k < |f.lines| ==> LineAt(PoscarReads(f), k) == f.lines[k]
    ensures k >= |f.lines| && f.finalNewline ==> LineAt(PoscarReads(f), k) == ""
    ensures |f.lines| >= 8 && !f.finalNewline && k >= |f.lines| - 1 ==>
      LineAt(PoscarReads(f), k) == f.lines[|f.lines| - 1]
  {
    var got := PoscarReads(f);
    if k < |f.lines| {
      assert got[k] == got[..|f.lines|][k];
    }
  }

  function Lift<T>(r: Result<T, Exception>): (q: Result<T, ReadError>)
    ensures r.Ok? <==> q.Ok?
    ensures r.Ok? ==> q.value == r.value
  {
    match r
    case Ok(v) => Ok(v)
    case Err(e) => Err(Thrown(e))
  }

  // ---------------------------------------------------------------------
  // read_xyz

  /** A line as read_xyz keeps it: boost::trim_all, then every tab replaced
      by a space. */
  function XyzLine(line: string): string
  {
    ReplaceChar(TrimAll(line), '\t', ' ')
  }

  function SetCoord(p: Vec3, c: nat, v: real): Vec3
    requires c < 3
  {
    if c == 0 then p.(x := v) else if c == 1 then p.(y := v) else p.(z := v)
  }

  /** The coordinate loop of one atom line: pieces j.. converted in order and
      written to coordinate j-1; a failed conversion throws, and a fourth
      coordinate lies past the end of the vector. */
  function Coords(pieces: seq<string>, j: nat, p: Vec3, toReal: string -> Result<real, Exception>): (r: Result<Vec3, ReadError>)
    requires 1 <= j <= |pieces|
    decreases |pieces| - j
  {
    if j == |pieces| then Ok(p)
    else match toReal(pieces[j])
      case Err(e) => Err(Thrown(e))
      case Ok(v) =>
        if j > 3 then Err(OutOfBounds("atom_positions[i][j-1]"))
        else Coords(pieces, j + 1, SetCoord(p, j - 1, v), toReal)
  }

  /** The atom loop of read_xyz from atom i on: line i+2 gives the element
      (its first piece) and the coordinates (the others). */
  function XyzAtoms(lines: seq<string>, i: nat, els: seq<string>, pos: seq<Vec3>,
                    toReal: string -> Result<real, Exception>): (r: Result<(seq<string>, seq<Vec3>), ReadError>)
    requires i <= |els| == |pos|
    decreases |els| - i
  {
    if i == |els| then Ok((els, pos))
    else if i + 2 >= |lines| then Err(OutOfBounds("lines[i+2]"))
    else
      var pieces := SplitOn(lines[i + 2], ' ');
      match Coords(pieces, 1, pos[i], toReal)
      case Err(e) => Err(e)
      case Ok(p) => XyzAtoms(lines, i + 1, els[i := pieces[0]], pos[i := p], toReal)
  }

  function ResizeNames(s: seq<string>, n: nat): (r: seq<string>)
    ensures |r| == n && forall i :: 0 <= i < n ==> r[i] == if i < |s| then s[i] else ""
  {
    seq(n, i requires 0 <= i < n => if i < |s| then s[i] else "")
  }

  function ResizePositions(s: seq<Vec3>, n: nat): (r: seq<Vec3>)
    ensures |r| == n && forall i :: 0 <= i < n ==> r[i] == if i < |s| then s[i] else Zero
  {
    seq(n, i requires 0 <= i < n => if i < |s| then s[i] else Zero)
  }

  function Centred(pos: seq<Vec3>, c: Vec3): (r: seq<Vec3>)
    ensures |r| == |pos| && forall i :: 0 <= i < |pos| ==> r[i] == Minus(pos[i], c)
  {
    seq(|pos|, i requires 0 <= i < |pos| => Minus(pos[i], c))
  }

  /** read_xyz on the kept lines: the atom count from line 0 (std::stoi), the
      element and position vectors resized to it, then one atom per line
      from line 2 on, shifted by the centre of mass when asked. */
  function ReadXyzSpec(lines: seq<string>, g: Geometry, num: Numerics, centre: bool): (r: Result<Geometry, ReadError>)
  {
    if lines == [] then Err(OutOfBounds("lines[0]"))
    else match Stoi(lines[0])
      case Err(e) => Err(Thrown(e))
      case Ok(n) =>
        if n < 0 then Err(Thrown(LengthError))
        else match XyzAtoms(lines, 0, ResizeNames(g.elements, n), ResizePositions(g.positions, n), num.toReal)
          case Err(e) => Err(e)
          case Ok((els, pos)) =>
            Ok(g.(elements := els, positions := if centre then Centred(pos, num.centre(pos)) else pos))
  }

  lemma {:induction false} XyzAtomsFacts(lines: seq<string>, i: nat, els: seq<string>, pos: seq<Vec3>,
                                         toReal: string -> Result<real, Exception>)
    requires i <= |els| == |pos|
    ensures var r := XyzAtoms(lines, i, els, pos, toReal);
      r.Ok? ==>
        && |r.value.0| == |els| && |r.value.1| == |els|
        && (i < |els| ==> |els| + 1 < |lines|)
        && (forall k :: 0 <= k < i ==> r.value.0[k] == els[k] && r.value.1[k] == pos[k])
        && (forall k :: i <= k < |els| ==> r.value.0[k] == SplitOn(lines[k + 2], ' ')[0])
    decreases |els| - i
  {
    if i < |els| && i + 2 < |lines| {
      var pieces := SplitOn(lines[i + 2], ' ');
      var c := Coords(pieces, 1, pos[i], toReal);
      if c.Ok? {
        XyzAtomsFacts(lines, i + 1, els[i := pieces[0]], pos[i := c.value], toReal);
      }
    }
  }

  /** A successful read_xyz holds exactly the announced number of atoms; the
      file has at least that many atom lines, and atom i's element is the
      first space-separated piece of line i+2. */
  lemma XyzShape(lines: seq<string>, g: Geometry, num: Numerics, centre: bool)
    ensures var r := ReadXyzSpec(lines, g, num, centre);
      r.Ok? ==>
        && lines != [] && Stoi(lines[0]).Ok? && Stoi(lines[0]).value >= 0
        && var n := Stoi(lines[0]).value;
        && |r.value.elements| == n && |r.value.positions| == n
        && (n > 0 ==> n + 2 <= |lines|)
        && (forall i :: 0 <= i < n ==> r.value.elements[i] == SplitOn(lines[i + 2], ' ')[0])
        && r.value.unitcell == g.unitcell
  {
    if lines != [] && Stoi(lines[0]).Ok? && Stoi(lines[0]).value >= 0 {
      var n := Stoi(lines[0]).value;
      XyzAtomsFacts(lines, 0, ResizeNames(g.elements, n), ResizePositions(g.positions, n), num.toReal);
    }
  }

  /** A line with an element and exactly three coordinates, read without
      centring, gives exactly those three values. */
  lemma XyzCoordinates(pieces: seq<string>, p: Vec3, toReal: string -> Result<real, Exception>)
    requires |pieces| == 4 && toReal(pieces[1]).Ok? && toReal(pieces[2]).Ok? && toReal(pieces[3]).Ok?
    ensures Coords(pieces, 1, p, toReal)
      == Ok(Vec3(toReal(pieces[1]).value, toReal(pieces[2]).value, toReal(pieces[3]).value))
  {
    var p1 := SetCoord(p, 0, toReal(pieces[1]).value);
    var p2 := SetCoord(p1, 1, toReal(pieces[2]).value);
    var p3 := SetCoord(p2, 2, toReal(pieces[3]).value);
    assert Coords(pieces, 4, p3, toReal) == Ok(p3);
    assert Coords(pieces, 3, p2, toReal) == Ok(p3);
    assert Coords(pieces, 2, p1, toReal) == Ok(p3);
  }

  // ---------------------------------------------------------------------
  // read_poscar

  predicate IsBlank(c: char) { c == ' ' || c == '\t' }

  /** boost::trim, then boost::split on " \t" with token_compress_on: the
      maximal runs of non-blank characters, or one empty piece for a blank
      line. */
  function Fields(line: string): (fs: seq<string>)
    ensures |fs| >= 1
  {
    var t := Trim(line);
    var ws := Words(t, IsBlank);
    if ws == [] then [""] else ws
  }

  predicate IsLetter(c: char) { 'A' <= c <= 'Z' || 'a' <= c <= 'z' }

  /** The pattern ^.*[A-Za-z]+.*$: the line holds at least one letter. */
  predicate HasLetter(line: string)
  {
    exists i :: 0 <= i < |line| && IsLetter(line[i])
  }

  /** The pattern ^\s*[Ss].*$: the first non-blank character is S or s. */
  predicate SelectiveDynamics(line: string)
  {
    var t := DropWhile(line, IsCSpace);
    t != [] && (t[0] == 'S' || t[0] == 's')
  }

  /** The coordinates are direct when the mode line starts with D or d. An
      empty line reads its terminating NUL and is Cartesian. */
  predicate IsDirect(line: string)
  {
    line != [] && (line[0] == 'D' || line[0] == 'd')
  }

  const Vasp4Error: string := "This file is probably a VASP4 POSCAR file. You can only load VASP5+ POSCAR files"
  const CountMismatchError: string := "Array size for element types does not match array size for number for each element type."

  predicate IsNumChar(c: char) { '0' <= c <= '9' || c == 'e' || c == '.' || c == '-' }

  predicate NotNumChar(c: char) { !IsNumChar(c) }

  /** Whitespace (at least one character when spaced), then a non-empty run
      of [0-9e.-] taken whole: one group of the coordinate patterns and the
      text after it. */
  function NumberGroup(s: string, spaced: bool): (r: Option<(string, string)>)
    ensures r.Some? ==> r.value.0 != [] && Clean(r.value.0, NotNumChar)
  {
    var t := DropWhile(s, IsCSpace);
    var w := TakeUntil(t, NotNumChar);
    if spaced && |t| == |s| then None
    else if w == [] then None
    else Some((w, t[|w|..]))
  }

  /** Whitespace (at least one character), then T or F: one flag of the
      selective-dynamics pattern and the text after it. */
  function FlagGroup(s: string): (r: Option<string>)
  {
    var t := DropWhile(s, IsCSpace);
    if |t| == |s| || t == [] || (t[0] != 'T' && t[0] != 'F') then None else Some(t[1..])
  }

  /** The three captured numbers when the line matches
      ^\s*([0-9e.-]+)\s+([0-9e.-]+)\s+([0-9e.-]+)\s*(.*)$, with the text after
      the third. */
  function Double3(line: string): (r: Option<(string, string, string, string)>)
  {
    match NumberGroup(line, false)
    case None => None
    case Some((x, r1)) =>
      match NumberGroup(r1, true)
      case None => None
      case Some((y, r2)) =>
        match NumberGroup(r2, true)
        case None => None
        case Some((z, r3)) => Some((x, y, z, r3))
  }

  /** The three captured numbers when the line matches the pattern with
      three T/F flags after the numbers. */
  function Double3Bool3(line: string): (r: Option<(string, string, string)>)
  {
    match Double3(line)
    case None => None
    case Some((x, y, z, rest)) =>
      match FlagGroup(rest)
      case None => None
      case Some(f1) =>
        match FlagGroup(f1)
        case None => None
        case Some(f2) =>
          match FlagGroup(f2)
          case None => None
          case Some(_) => Some((x, y, z))
  }

  /** How atom lines are read: with or without flags, direct or Cartesian,
      and the scaled cell that turns direct coordinates into Cartesian ones. */
  datatype Mode = Mode(selective: bool, direct: bool, cell: Mat3)

  /** One atom line: None when it does not match the pattern of the mode and
      is skipped, otherwise its position. */
  function AtomOfLine(line: string, mode: Mode, toReal: string -> Result<real, Exception>): (r: Result<Option<Vec3>, ReadError>)
  {
    var groups := if mode.selective then Double3Bool3(line)
      else match Double3(line) case None => None case Some((x, y, z, _)) => Some((x, y, z));
    match groups
    case None => Ok(None)
    case Some((xs, ys, zs)) =>
      match toReal(xs)
      case Err(e) => Err(Thrown(e))
      case Ok(x) =>
        match toReal(ys)
        case Err(e) => Err(Thrown(e))
        case Ok(y) =>
          match toReal(zs)
          case Err(e) => Err(Thrown(e))
          case Ok(z) =>
            var v := Vec3(x, y, z);
            Ok(Some(if mode.direct then TransposeApply(mode.cell, v) else v))
  }

  /** AtomOfLine as a function of the line alone. */
  function AtomReader(mode: Mode, toReal: string -> Result<real, Exception>): string -> Result<Option<Vec3>, ReadError>
  {
    line => AtomOfLine(line, mode, toReal)
  }

  /** The lines of element type t, from line k with left lines to go; every
      matching line adds (t, position) to acc. */
  function TypeAtoms(lines: seq<string>, k: nat, left: nat, t: nat, read: string -> Result<Option<Vec3>, ReadError>, acc: seq<(nat, Vec3)>): (r: Result<seq<(nat, Vec3)>, ReadError>)
    decreases left
  {
    if left == 0 then Ok(acc)
    else match read(LineAt(lines, k))
      case Err(e) => Err(e)
      case Ok(a) => TypeAtoms(lines, k + 1, left - 1, t, read, if a.Some? then acc + [(t, a.value)] else acc)
  }

  /** An empty line matches neither atom pattern and is skipped. */
  lemma EmptyLineSkipped(mode: Mode, toReal: string -> Result<real, Exception>)
    ensures AtomOfLine("", mode, toReal) == Ok(None)
  {
  }

  /** A matching atom line that ends the file is read for every atom of its
      type still to come when it has no newline (with a count of 2 and one
      atom line, that atom twice), and once when it has one. */
  lemma LastAtomLineRepeats(f: TextFile, t: nat, mode: Mode, toReal: string -> Result<real, Exception>,
                            acc: seq<(nat, Vec3)>)
    requires |f.lines| >= 8
    requires AtomOfLine(f.lines[|f.lines| - 1], mode, toReal).Ok?
    requires AtomOfLine(f.lines[|f.lines| - 1], mode, toReal).value.Some?
    ensures var p := AtomOfLine(f.lines[|f.lines| - 1], mode, toReal).value.value;
      var r := TypeAtoms(PoscarReads(f), |f.lines| - 1, 2, t, AtomReader(mode, toReal), acc);
      && (!f.finalNewline ==> r == Ok(acc + [(t, p)] + [(t, p)]))
      && (f.finalNewline ==> r == Ok(acc + [(t, p)]))
  {
    PoscarLineAt(f, |f.lines| - 1);
    PoscarLineAt(f, |f.lines|);
    EmptyLineSkipped(mode, toReal);
  }

  /** The element types from t on, from line k on. */
  function AllAtoms(lines: seq<string>, k: nat, counts: seq<nat>, t: nat, read: string -> Result<Option<Vec3>, ReadError>, acc: seq<(nat, Vec3)>): (r: Result<seq<(nat, Vec3)>, ReadError>)
    requires t <= |counts|
    decreases |counts| - t
  {
    if t == |counts| then Ok(acc)
    else match TypeAtoms(lines, k, counts[t], t, read, acc)
      case Err(e) => Err(e)
      case Ok(acc') => AllAtoms(lines, k + counts[t], counts, t + 1, read, acc')
  }

  function SumFrom(counts: seq<nat>, t: nat): nat
    requires t <= |counts|
    decreases |counts| - t
  {
    if t == |counts| then 0 else counts[t] + SumFrom(counts, t + 1)
  }

  /** Type indices in [lo, hi) and never decreasing. */
  predicate TypeOrdered(atoms: seq<(nat, Vec3)>, lo: nat, hi: nat)
  {
    && (forall a :: 0 <= a < |atoms| ==> lo <= atoms[a].0 < hi)
    && (forall a, b :: 0 <= a < b < |atoms| ==> atoms[a].0 <= atoms[b].0)
  }

  lemma {:induction false} TypeAtomsFacts(lines: seq<string>, k: nat, left: nat, t: nat,
                                          read: string -> Result<Option<Vec3>, ReadError>, acc: seq<(nat, Vec3)>)
    ensures var r := TypeAtoms(lines, k, left, t, read, acc);
      r.Ok? ==>
        && |acc| <= |r.value| <= |acc| + left
        && r.value[..|acc|] == acc
        && forall a :: |acc| <= a < |r.value| ==> r.value[a].0 == t
    decreases left
  {
    if left > 0 {
      var a := read(LineAt(lines, k));
      if a.Ok? {
        var acc' := if a.value.Some? then acc + [(t, a.value.value)] else acc;
        TypeAtomsFacts(lines, k + 1, left - 1, t, read, acc');
        var r := TypeAtoms(lines, k, left, t, read, acc);
        if r.Ok? {
          assert r.value[..|acc'|] == acc';
          assert r.value[..|acc|] == acc'[..|acc|];
        }
      }
    }
  }

  lemma {:induction false} AllAtomsFacts(lines: seq<string>, k: nat, counts: seq<nat>, t: nat,
                                         read: string -> Result<Option<Vec3>, ReadError>, acc: seq<(nat, Vec3)>)
    requires t <= |counts|
    ensures var r := AllAtoms(lines, k, counts, t, read, acc);
      r.Ok? ==>
        && |acc| <= |r.value| <= |acc| + SumFrom(counts, t)
        && r.value[..|acc|] == acc
        && TypeOrdered(r.value[|acc|..], t, |counts|)
    decreases |counts| - t
  {
    var r := AllAtoms(lines, k, counts, t, read, acc);
    if t < |counts| {
      var m := TypeAtoms(lines, k, counts[t], t, read, acc);
      TypeAtomsFacts(lines, k, counts[t], t, read, acc);
      if m.Ok? {
        var acc' := m.value;
        AllAtomsFacts(lines, k + counts[t], counts, t + 1, read, acc');
        if r.Ok? {
          var v := r.value;
          assert v[..|acc|] == acc by {
            assert v[..|acc'|] == acc';
            assert v[..|acc|] == acc'[..|acc|];
          }
          var mine, later := v[|acc|..|acc'|], v[|acc'|..];
          assert v[|acc|..] == mine + later;
          assert forall a :: 0 <= a < |mine| ==> mine[a] == acc'[|acc| + a];
        }
      }
    } else {
      assert r.value[|acc|..] == [];
    }
  }

  /** The conversion loop of the per-element counts. */
  function Counts(pieces: seq<string>, toUnsigned: string -> Result<nat, Exception>, acc: seq<nat>): (r: Result<seq<nat>, ReadError>)
    ensures r.Ok? ==> |r.value| == |acc| + |pieces|
    decreases |pieces|
  {
    if pieces == [] then Ok(acc)
    else match toUnsigned(pieces[0])
      case Err(e) => Err(Thrown(e))
      case Ok(v) => Counts(pieces[1..], toUnsigned, acc + [v])
  }

  /** Entries i.. of one row of the cell. */
  function RowEntries(fs: seq<string>, i: nat, toReal: string -> Result<real, Exception>, acc: seq<real>): (r: Result<seq<real>, ReadError>)
    requires i == |acc| <= 3
    ensures r.Ok? ==> |r.value| == 3
    decreases 3 - i
  {
    if i == 3 then Ok(acc)
    else if i >= |fs| then Err(OutOfBounds("pieces[i]"))
    else match toReal(fs[i])
      case Err(e) => Err(Thrown(e))
      case Ok(v) => RowEntries(fs, i + 1, toReal, acc + [v])
  }

  function RowVec(v: seq<real>): Vec3
    requires |v| == 3
  {
    Vec3(v[0], v[1], v[2])
  }

  /** Rows j.. of the cell, from lines 2, 3 and 4. */
  function CellRows(lines: seq<string>, j: nat, toReal: string -> Result<real, Exception>, acc: seq<Vec3>): (r: Result<seq<Vec3>, ReadError>)
    requires j == |acc| <= 3
    ensures r.Ok? ==> |r.value| == 3
    decreases 3 - j
  {
    if j == 3 then Ok(acc)
    else match RowEntries(Fields(LineAt(lines, 2 + j)), 0, toReal, [])
      case Err(e) => Err(e)
      case Ok(v) => CellRows(lines, j + 1, toReal, acc + [RowVec(v)])
  }

  function Labels(names: seq<string>, atoms: seq<(nat, Vec3)>): (r: seq<string>)
    requires forall a :: 0 <= a < |atoms| ==> atoms[a].0 < |names|
    ensures |r| == |atoms|
  {
    seq(|atoms|, a requires 0 <= a < |atoms| => names[atoms[a].0])
  }

  function Positions(atoms: seq<(nat, Vec3)>): (r: seq<Vec3>)
    ensures |r| == |atoms|
  {
    seq(|atoms|, a requires 0 <= a < |atoms| => atoms[a].1)
  }

  /** The line holding the coordinate mode, after the optional
      selective-dynamics line. */
  function ModeLine(lines: seq<string>): nat
  {
    if SelectiveDynamics(LineAt(lines, 7)) then 8 else 7
  }

  /** What read_poscar takes from the lines before the atoms: the scaled
      cell, the element names and the count per name. */
  datatype Header = Header(cell: Mat3, names: seq<string>, counts: seq<nat>)

  /** read_poscar up to the atoms: line 0 skipped; the scaling factor on
      line 1; the cell on lines 2-4, scaled; the element names on line 5,
      which must hold a letter; the counts on line 6, as many as names. */
  function PoscarHeader(lines: seq<string>, num: Numerics): (r: Result<Header, ReadError>)
    ensures r.Ok? ==>
      && HasLetter(LineAt(lines, 5))
      && r.value.names == Fields(LineAt(lines, 5))
      && |r.value.counts| == |r.value.names|
  {
    match Lift(num.toReal(Trim(LineAt(lines, 1))))
    case Err(e) => Err(e)
    case Ok(scalar) =>
      match CellRows(lines, 0, num.toReal, [])
      case Err(e) => Err(e)
      case Ok(rows) =>
        if !HasLetter(LineAt(lines, 5)) then Err(Thrown(RuntimeError(Vasp4Error)))
        else
          var names := Fields(LineAt(lines, 5));
          match Counts(Fields(LineAt(lines, 6)), num.toUnsigned, [])
          case Err(e) => Err(e)
          case Ok(counts) =>
            if |counts| != |names| then Err(Thrown(RuntimeError(CountMismatchError)))
            else Ok(Header(ScaleCell(scalar, Mat3(rows[0], rows[1], rows[2])), names, counts))
  }

  /** The reading of atom lines the header and lines 7-8 select: with flags
      after a selective-dynamics line, direct or Cartesian by the mode line. */
  function PoscarMode(lines: seq<string>, h: Header): Mode
  {
    var m := ModeLine(lines);
    Mode(m == 8, IsDirect(LineAt(lines, m)), h.cell)
  }

  lemma ModeAgrees(lines: seq<string>, h: Header, selective: bool, k: nat)
    requires selective == SelectiveDynamics(LineAt(lines, 7)) && k == if selective then 8 else 7
    ensures k == ModeLine(lines) && Mode(selective, IsDirect(LineAt(lines, k)), h.cell) == PoscarMode(lines, h)
  {
  }

  /** What read_poscar gathers before the atoms are stored: the header and
      the atoms read, each with the index of its type. */
  datatype Parsed = Parsed(header: Header, atoms: seq<(nat, Vec3)>)

  /** read_poscar up to the stores: after the header, the optional
      selective-dynamics line and the mode line, counts[t] lines per type t,
      of which the matching ones are kept. A success holds a letter on the
      names line, as many counts as names, and at most as many atoms as the
      counts add up to, grouped by type in file order. */
  function ParsePoscar(lines: seq<string>, num: Numerics): (r: Result<Parsed, ReadError>)
    ensures r.Ok? ==>
      && HasLetter(LineAt(lines, 5))
      && r.value.header.names == Fields(LineAt(lines, 5))
      && |r.value.header.counts| == |r.value.header.names|
      && |r.value.atoms| <= SumFrom(r.value.header.counts, 0)
      && TypeOrdered(r.value.atoms, 0, |r.value.header.names|)
  {
    match PoscarHeader(lines, num)
    case Err(e) => Err(e)
    case Ok(h) =>
      var read := AtomReader(PoscarMode(lines, h), num.toReal);
      match AllAtoms(lines, ModeLine(lines) + 1, h.counts, 0, read, [])
      case Err(e) => Err(e)
      case Ok(atoms) =>
        AllAtomsFacts(lines, ModeLine(lines) + 1, h.counts, 0, read, []);
        assert atoms[0..] == atoms;
        Ok(Parsed(h, atoms))
  }

  /** The stores at the end of read_poscar: the cell replaced by the scaled
      one, and every atom read appended to the element and position lists,
      labelled with the name of its type. The lists already held are kept
      and grow by the same number of entries. */
  function StoreAtoms(g: Geometry, p: Parsed): (r: Geometry)
    requires TypeOrdered(p.atoms, 0, |p.header.names|)
    ensures r.unitcell == p.header.cell
    ensures |r.elements| - |g.elements| == |r.positions| - |g.positions| == |p.atoms|
    ensures r.elements[..|g.elements|] == g.elements && r.positions[..|g.positions|] == g.positions
    ensures forall a :: 0 <= a < |p.atoms| ==>
      r.elements[|g.elements| + a] == p.header.names[p.atoms[a].0] && r.positions[|g.positions| + a] == p.atoms[a].1
  {
    Geometry(p.header.cell, g.elements + Labels(p.header.names, p.atoms), g.positions + Positions(p.atoms))
  }

  /** read_poscar; the centring flag plays no part. */
  function ReadPoscarSpec(lines: seq<string>, g: Geometry, num: Numerics): (r: Result<Geometry, ReadError>)
  {
    match ParsePoscar(lines, num)
    case Err(e) => Err(e)
    case Ok(p) => Ok(StoreAtoms(g, p))
  }

  /** ParsePoscar stage by stage: the header, then the atoms. */
  lemma ParseStages(lines: seq<string>, num: Numerics, h: Header)
    requires PoscarHeader(lines, num) == Ok(h)
    ensures var atoms := AllAtoms(lines, ModeLine(lines) + 1, h.counts, 0, AtomReader(PoscarMode(lines, h), num.toReal), []);
      && (atoms.Err? ==> ParsePoscar(lines, num) == Err(atoms.error))
      && (atoms.Ok? ==> ParsePoscar(lines, num) == Ok(Parsed(h, atoms.value)))
  {
  }

  /** A header that fails fails the whole parse. */
  lemma HeaderStage(lines: seq<string>, num: Numerics)
    ensures PoscarHeader(lines, num).Err? ==> ParsePoscar(lines, num) == Err(PoscarHeader(lines, num).error)
  {
  }

  /** ReadPoscarSpec from the outcome of ParsePoscar. */
  lemma StoreStage(lines: seq<string>, g: Geometry, num: Numerics)
    ensures var p := ParsePoscar(lines, num);
      && (p.Err? ==> ReadPoscarSpec(lines, g, num) == Err(p.error))
      && (p.Ok? ==> ReadPoscarSpec(lines, g, num) == Ok(StoreAtoms(g, p.value)))
  {
  }

  /** The errors of read_poscar in the order its checks run: a names line
      without a letter is the VASP4 error whatever follows it, and otherwise
      a count list of another length than the names is the size error. */
  lemma PoscarErrors(lines: seq<string>, num: Numerics)
    requires num.toReal(Trim(LineAt(lines, 1))).Ok? && CellRows(lines, 0, num.toReal, []).Ok?
    ensures !HasLetter(LineAt(lines, 5)) ==> PoscarHeader(lines, num) == Err(Thrown(RuntimeError(Vasp4Error)))
    ensures var counts := Counts(Fields(LineAt(lines, 6)), num.toUnsigned, []);
      HasLetter(LineAt(lines, 5)) && counts.Ok? && |counts.value| != |Fields(LineAt(lines, 5))| ==>
        PoscarHeader(lines, num) == Err(Thrown(RuntimeError(CountMismatchError)))
  {
  }

  // ---------------------------------------------------------------------
  // The reading loops

  /** The lines read_xyz keeps, one per line of the file. */
  function XyzLines(file: seq<string>): (lines: seq<string>)
    ensures |lines| == |file| && forall k :: 0 <= k < |file| ==> lines[k] == XyzLine(file[k])
  {
    seq(|file|, k requires 0 <= k < |file| => XyzLine(file[k]))
  }

  /** The getline loop of read_xyz. */
  method KeepXyzLines(file: seq<string>) returns (lines: seq<string>)
    ensures lines == XyzLines(file)
  {
    lines := [];
    var i := 0;
    while i < |file|
      invariant 0 <= i <= |file| && |lines| == i
      invariant forall k :: 0 <= k < i ==> lines[k] == XyzLine(file[k])
    {
      lines := lines + [XyzLine(file[i])];
      i := i + 1;
    }
    SameXyzLines(lines, file);
  }

  lemma SameXyzLines(lines: seq<string>, file: seq<string>)
    requires |lines| == |file| && forall k :: 0 <= k < |file| ==> lines[k] == XyzLine(file[k])
    ensures lines == XyzLines(file)
  {
  }

  /** The coordinate loop of one .xyz atom line. */
  method ReadCoords(pieces: seq<string>, p0: Vec3, toReal: string -> Result<real, Exception>) returns (r: Result<Vec3, ReadError>)
    requires |pieces| >= 1
    ensures r == Coords(pieces, 1, p0, toReal)
  {
    var p := p0;
    var j := 1;
    while j < |pieces|
      invariant 1 <= j <= |pieces|
      invariant Coords(pieces, 1, p0, toReal) == Coords(pieces, j, p, toReal)
    {
      var v := toReal(pieces[j]);
      if v.Err? {
        return Err(Thrown(v.error));
      }
      if j > 3 {
        return Err(OutOfBounds("atom_positions[i][j-1]"));
      }
      p := SetCoord(p, j - 1, v.value);
      j := j + 1;
    }
    return Ok(p);
  }

  /** The three entries of one row of the cell. */
  method ReadRow(pieces: seq<string>, toReal: string -> Result<real, Exception>) returns (r: Result<seq<real>, ReadError>)
    ensures r == RowEntries(pieces, 0, toReal, [])
  {
    var entries: seq<real> := [];
    var i := 0;
    while i < 3
      invariant i == |entries| <= 3
      invariant RowEntries(pieces, 0, toReal, []) == RowEntries(pieces, i, toReal, entries)
    {
      if i >= |pieces| {
        return Err(OutOfBounds("pieces[i]"));
      }
      var v := toReal(pieces[i]);
      if v.Err? {
        return Err(Thrown(v.error));
      }
      entries := entries + [v.value];
      i := i + 1;
    }
    return Ok(entries);
  }

  /** The loop over the three rows of the cell of a POSCAR file. */
  method ReadCellRows(lines: seq<string>, toReal: string -> Result<real, Exception>) returns (r: Result<seq<Vec3>, ReadError>)
    ensures r == CellRows(lines, 0, toReal, [])
  {
    var rows: seq<Vec3> := [];
    var j := 0;
    while j < 3
      invariant j == |rows| <= 3
      invariant CellRows(lines, 0, toReal, []) == CellRows(lines, j, toReal, rows)
    {
      var entries := ReadRow(Fields(LineAt(lines, 2 + j)), toReal);
      if entries.Err? {
        return Err(entries.error);
      }
      rows := rows + [RowVec(entries.value)];
      j := j + 1;
    }
    return Ok(rows);
  }

  /** The loop that converts the per-element counts of a POSCAR file. */
  method ReadCounts(pieces: seq<string>, toUnsigned: string -> Result<nat, Exception>) returns (r: Result<seq<nat>, ReadError>)
    ensures r == Counts(pieces, toUnsigned, [])
  {
    var counts: seq<nat> := [];
    var i := 0;
    while i < |pieces|
      invariant 0 <= i <= |pieces|
      invariant Counts(pieces, toUnsigned, []) == Counts(pieces[i..], toUnsigned, counts)
    {
      var v := toUnsigned(pieces[i]);
      assert pieces[i..][1..] == pieces[i + 1..];
      if v.Err? {
        return Err(Thrown(v.error));
      }
      counts := counts + [v.value];
      i := i + 1;
    }
    return Ok(counts);
  }

  /** The header part of read_poscar, up to the count check. */
  method ReadHeader(lines: seq<string>, num: Numerics) returns (r: Result<Header, ReadError>)
    ensures r == PoscarHeader(lines, num)
  {
    var scalar := num.toReal(Trim(LineAt(lines, 1)));
    if scalar.Err? {
      return Err(Thrown(scalar.error));
    }
    var rows := ReadCellRows(lines, num.toReal);
    if rows.Err? {
      return Err(rows.error);
    }
    var cell := ScaleCell(scalar.value, Mat3(rows.value[0], rows.value[1], rows.value[2]));
    var namesLine := LineAt(lines, 5);
    if !HasLetter(namesLine) {
      return Err(Thrown(RuntimeError(Vasp4Error)));
    }
    var names := Fields(namesLine);
    var counts := ReadCounts(Fields(LineAt(lines, 6)), num.toUnsigned);
    if counts.Err? {
      return Err(counts.error);
    }
    if |counts.value| != |names| {
      return Err(Thrown(RuntimeError(CountMismatchError)));
    }
    return Ok(Header(cell, names, counts.value));
  }

  lemma LabelsSnoc(names: seq<string>, atoms: seq<(nat, Vec3)>, atom: (nat, Vec3))
    requires forall a :: 0 <= a < |atoms| ==> atoms[a].0 < |names|
    requires atom.0 < |names|
    ensures Labels(names, atoms + [atom]) == Labels(names, atoms) + [names[atom.0]]
    ensures Positions(atoms + [atom]) == Positions(atoms) + [atom.1]
  {
  }

  /** An operation's outcome agrees with the specification's result: it
      passes exactly when the specification succeeds, and fails with the
      specification's error. */
  predicate Reports<T>(r: Outcome<ReadError>, spec: Result<T, ReadError>)
  {
    (r.Pass? <==> spec.Ok?) && (r.Fail? ==> spec.Err? && r.error == spec.error)
  }

  /** The GeometryReader object: the cell, the element of every atom, the
      positions, and whether the structure is periodic. */
  class Reader {
    var unitcell: Mat3
    var elements: seq<string>
    var atomPositions: seq<Vec3>
    var periodic: bool

    /** A reader that holds no atoms and is not periodic. */
    constructor ()
      ensures unitcell == Mat3(Zero, Zero, Zero) && elements == [] && atomPositions == [] && !periodic
    {
      unitcell := Mat3(Zero, Zero, Zero);
      elements := [];
      atomPositions := [];
      periodic := false;
    }

    function Geom(): Geometry
      reads this
    {
      Geometry(unitcell, elements, atomPositions)
    }

    /** read_xyz on the lines of a file: on success the fields are those
        ReadXyzSpec gives, and on failure the error is the one it names. */
    method ReadXyz(file: seq<string>, num: Numerics, centre: bool) returns (r: Outcome<ReadError>)
      modifies this
      ensures var spec := ReadXyzSpec(XyzLines(file), old(Geom()), num, centre);
        Reports(r, spec) && (spec.Ok? ==> Geom() == spec.value)
      ensures periodic == old(periodic)
    {
      var lines := KeepXyzLines(file);
      if |lines| == 0 {
        return Fail(OutOfBounds("lines[0]"));
      }
      var count := Stoi(lines[0]);
      if count.Err? {
        return Fail(Thrown(count.error));
      }
      var n := count.value;
      if n < 0 {
        return Fail(Thrown(LengthError));
      }
      elements := ResizeNames(elements, n);
      atomPositions := ResizePositions(atomPositions, n);
      r := ReadXyzAtoms(lines, num.toReal);
      if r.Pass? && centre {
        CentrePositions(num.centre(atomPositions));
      }
    }

    /** The atom loop of read_xyz over the resized lists: atom i from line
        i+2. */
    method ReadXyzAtoms(lines: seq<string>, toReal: string -> Result<real, Exception>) returns (r: Outcome<ReadError>)
      requires |elements| == |atomPositions|
      modifies this
      ensures var spec := XyzAtoms(lines, 0, old(elements), old(atomPositions), toReal);
        Reports(r, spec) && (spec.Ok? ==> elements == spec.value.0 && atomPositions == spec.value.1)
      ensures unitcell == old(unitcell) && periodic == old(periodic)
    {
      var a := 0;
      while a < |elements|
        invariant 0 <= a <= |elements| == |atomPositions| == |old(elements)|
        invariant XyzAtoms(lines, 0, old(elements), old(atomPositions), toReal) == XyzAtoms(lines, a, elements, atomPositions, toReal)
        invariant unitcell == old(unitcell) && periodic == old(periodic)
      {
        if a + 2 >= |lines| {
          return Fail(OutOfBounds("lines[i+2]"));
        }
        var pieces := SplitOn(lines[a + 2], ' ');
        ghost var els := elements;
        elements := elements[a := pieces[0]];
        var p := ReadCoords(pieces, atomPositions[a], toReal);
        if p.Err? {
          assert XyzAtoms(lines, a, els, atomPositions, toReal) == Err(p.error);
          return Fail(p.error);
        }
        atomPositions := atomPositions[a := p.value];
        a := a + 1;
      }
      return Pass;
    }

    /** Subtracts the centre of mass c from every position. */
    method CentrePositions(c: Vec3)
      modifies this
      ensures atomPositions == Centred(old(atomPositions), c)
      ensures unitcell == old(unitcell) && elements == old(elements) && periodic == old(periodic)
    {
      var b := 0;
      while b < |atomPositions|
        invariant 0 <= b <= |atomPositions| == |old(atomPositions)|
        invariant forall k :: 0 <= k < b ==> atomPositions[k] == Minus(old(atomPositions)[k], c)
        invariant forall k :: b <= k < |atomPositions| ==> atomPositions[k] == old(atomPositions)[k]
        invariant unitcell == old(unitcell) && elements == old(elements) && periodic == old(periodic)
      {
        atomPositions := atomPositions[b := Minus(atomPositions[b], c)];
        b := b + 1;
      }
    }

    /** The inner atom loop of read_poscar: the left lines of type t from
        line k on. The atoms read so far, acc, are those appended to the
        lists els0 and pos0. */
    method CollectType(lines: seq<string>, k: nat, left: nat, t: nat, names: seq<string>,
                       read: string -> Result<Option<Vec3>, ReadError>, ghost els0: seq<string>, ghost pos0: seq<Vec3>,
                       ghost acc: seq<(nat, Vec3)>)
      returns (r: Outcome<ReadError>, ghost acc': seq<(nat, Vec3)>)
      requires t < |names| && forall a :: 0 <= a < |acc| ==> acc[a].0 < |names|
      requires elements == els0 + Labels(names, acc) && atomPositions == pos0 + Positions(acc)
      modifies this
      ensures var spec := TypeAtoms(lines, k, left, t, read, acc);
        && Reports(r, spec)
        && (spec.Ok? ==> acc' == spec.value)
      ensures forall a :: 0 <= a < |acc'| ==> acc'[a].0 < |names|
      ensures elements == els0 + Labels(names, acc') && atomPositions == pos0 + Positions(acc')
      ensures unitcell == old(unitcell) && periodic == old(periodic)
    {
      acc' := acc;
      var line := k;
      var j := 0;
      while j < left
        invariant 0 <= j <= left && line == k + j
        invariant TypeAtoms(lines, k, left, t, read, acc) == TypeAtoms(lines, line, left - j, t, read, acc')
        invariant forall a :: 0 <= a < |acc'| ==> acc'[a].0 < |names|
        invariant elements == els0 + Labels(names, acc') && atomPositions == pos0 + Positions(acc')
        invariant unitcell == old(unitcell) && periodic == old(periodic)
      {
        var atom := read(LineAt(lines, line));
        if atom.Err? {
          return Fail(atom.error), acc';
        }
        if atom.value.Some? {
          LabelsSnoc(names, acc', (t, atom.value.value));
          atomPositions := atomPositions + [atom.value.value];
          elements := elements + [names[t]];
          acc' := acc' + [(t, atom.value.value)];
        }
        line := line + 1;
        j := j + 1;
      }
      return Pass, acc';
    }

    /** The atom loops of read_poscar: for each type t, counts[t] lines
        from line k0 on; every line that matches appends its position and
        the name of its type. */
    method CollectAtoms(lines: seq<string>, k0: nat, h: Header, read: string -> Result<Option<Vec3>, ReadError>)
      returns (r: Outcome<ReadError>)
      requires |h.counts| == |h.names|
      modifies this
      ensures var spec := AllAtoms(lines, k0, h.counts, 0, read, []);
        && Reports(r, spec)
        && (spec.Ok? ==>
          && TypeOrdered(spec.value, 0, |h.names|)
          && elements == old(elements) + Labels(h.names, spec.value)
          && atomPositions == old(atomPositions) + Positions(spec.value))
      ensures unitcell == old(unitcell) && periodic == old(periodic)
    {
      ghost var acc: seq<(nat, Vec3)> := [];
      var k := k0;
      var t := 0;
      while t < |h.names|
        invariant 0 <= t <= |h.names|
        invariant AllAtoms(lines, k0, h.counts, 0, read, []) == AllAtoms(lines, k, h.counts, t, read, acc)
        invariant forall a :: 0 <= a < |acc| ==> acc[a].0 < |h.names|
        invariant elements == old(elements) + Labels(h.names, acc)
        invariant atomPositions == old(atomPositions) + Positions(acc)
        invariant unitcell == old(unitcell) && periodic == old(periodic)
      {
        var outcome;
        outcome, acc := CollectType(lines, k, h.counts[t], t, h.names, read, old(elements), old(atomPositions), acc);
        if outcome.Fail? {
          return outcome;
        }
        k := k + h.counts[t];
        t := t + 1;
      }
      AllAtomsFacts(lines, k0, h.counts, 0, read, []);
      assert acc[0..] == acc;
      return Pass;
    }

    /** read_poscar on a file: on success the fields are those ReadPoscarSpec
        gives for the strings its getline calls read, and on failure the
        error is the one it names. */
    method ReadPoscar(file: TextFile, num: Numerics) returns (r: Outcome<ReadError>)
      modifies this
      ensures var spec := ReadPoscarSpec(PoscarReads(file), old(Geom()), num);
        Reports(r, spec) && (spec.Ok? ==> Geom() == spec.value)
      ensures periodic == old(periodic)
    {
      var got := PoscarReads(file);
      StoreStage(got, Geom(), num);
      var header := ReadHeader(got, num);
      if header.Err? {
        HeaderStage(got, num);
        return Fail(header.error);
      }
      ParseStages(got, num, header.value);
      r := ReadPoscarBody(got, num, header.value);
    }

    /** read_poscar after its header h: the cell is stored, the mode chosen
        and the atoms collected. */
    method ReadPoscarBody(file: seq<string>, num: Numerics, h: Header) returns (r: Outcome<ReadError>)
      requires |h.counts| == |h.names|
      modifies this
      ensures var atoms := AllAtoms(file, ModeLine(file) + 1, h.counts, 0, AtomReader(PoscarMode(file, h), num.toReal), []);
        && Reports(r, atoms)
        && (atoms.Ok? ==> TypeOrdered(atoms.value, 0, |h.names|) && Geom() == StoreAtoms(old(Geom()), Parsed(h, atoms.value)))
      ensures periodic == old(periodic)
    {
      unitcell := h.cell;
      var k := 7;
      var selective := SelectiveDynamics(LineAt(file, k));
      if selective {
        k := k + 1;
      }
      var direct := IsDirect(LineAt(file, k));
      var mode := Mode(selective, direct, h.cell);
      ModeAgrees(file, h, selective, k);
      r := CollectAtoms(file, k + 1, h, AtomReader(mode, num.toReal));
    }

    /** read_file: a missing file and an unknown file type are errors that
        leave the reader as it was; .geo files go to read_geo, which is not
        part of this model; .xyz files are read as by ReadXyz; POSCAR and
        CONTCAR files as by ReadPoscar, after which, and only then, the
        structure is periodic. */
    method ReadFile(filename: string, present: bool, file: TextFile, num: Numerics, centre: bool)
      returns (r: Outcome<ReadError>)
      modifies this
      ensures !present ==> r == Fail(CannotAccess(filename)) && unchanged(this)
      ensures present && Dispatch(filename) == None ==>
        r == Fail(UnknownFileType(filename)) && unchanged(this)
      ensures present && Dispatch(filename) == Some(Geo) ==> r == Pass && unchanged(this)
      ensures present && Dispatch(filename) == Some(Xyz) ==>
        var spec := ReadXyzSpec(XyzLines(file.lines), old(Geom()), num, centre);
        Reports(r, spec) && (spec.Ok? ==> Geom() == spec.value) && periodic == old(periodic)
      ensures present && Dispatch(filename) == Some(Poscar) ==>
        var spec := ReadPoscarSpec(PoscarReads(file), old(Geom()), num);
        Reports(r, spec) && (spec.Ok? ==> Geom() == spec.value && periodic)
    {
      if !present {
        return Fail(CannotAccess(filename));
      }
      var name := FileName(filename);
      var ext := Extension(name);
      assert Dispatch(filename) == DispatchName(name);
      if ext == ".geo" {
        r := Pass;
      } else if ext == ".xyz" {
        r := ReadXyz(file.lines, num, centre);
      } else if PoscarName(name) {
        r := ReadPoscar(file, num);
        if r.Pass? {
          periodic := true;
        }
      } else {
        r := Fail(UnknownFileType(filename));
      }
    }
  }
}
