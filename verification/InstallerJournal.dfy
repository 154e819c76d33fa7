/** The text of the install journal: what is written, what recovery reads back, and when the
    two agree. */
module InstallerJournal {
  import opened Wrappers
  import opened InstallerDisk
  import opened Numerals

  const LIMIT: nat := 4096

  /** The number of bytes of a string in UTF-8. */
  function ByteLength(s: string): nat {
    if s == "" then 0 else
      var c := s[0] as int;
      (if c < 0x80 then 1 else if c < 0x800 then 2 else if c < 0x1_0000 then 3 else 4) + ByteLength(s[1..])
  }

  predicate Whitespace(c: char) {
    var u := c as int;
    0x9 <= u <= 0xD || u == 0x20 || u == 0x85 || u == 0xA0 || u == 0x1680 || 0x2000 <= u <= 0x200A
    || u == 0x2028 || u == 0x2029 || u == 0x202F || u == 0x205F || u == 0x3000
  }

  function TrimEnd(s: string): (t: string)
    ensures t <= s && (t == "" || !Whitespace(t[|t| - 1]))
  {
    if s == "" || !Whitespace(s[|s| - 1]) then s else TrimEnd(s[..|s| - 1])
  }

  function TrimStart(s: string): string {
    if s == "" || !Whitespace(s[0]) then s else TrimStart(s[1..])
  }

  function Trim(s: string): string {
    TrimStart(TrimEnd(s))
  }

  /** The lines of a text; a carriage return before the line feed belongs to the line ending. */
  function Lines(s: string): seq<string> {
    if s == "" then []
    else
      var k := Find(s, '\n');
      if k == |s| then [s] else [Chomp(s[..k])] + Lines(s[k + 1..])
  }

  function Find(s: string, c: char): (k: nat)
    ensures k <= |s| && c !in s[..k] && (k < |s| ==> s[k] == c)
  {
    if s == "" || s[0] == c then 0
    else
      var k := 1 + Find(s[1..], c);
      assert s[..k] == [s[0]] + s[1..][..k - 1];
      k
  }

  function Chomp(line: string): string {
    if line != "" && line[|line| - 1] == '\r' then line[..|line| - 1] else line
  }

  /** The directory part and the last component of a normalized absolute path. */
  function Parent(path: string): Option<string> {
    var k := Last(path, '/');
    if k == |path| then None else Some(path[..k])
  }

  function FileName(path: string): string {
    var k := Last(path, '/');
    if k == |path| then path else path[k + 1..]
  }

  /** The position of the last `c`, or the length of `s`. */
  function Last(s: string, c: char): (k: nat)
    ensures k <= |s| && (k < |s| ==> s[k] == c && c !in s[k + 1..])
    ensures k == |s| ==> c !in s
  {
    if s == "" then 0
    else
      var k := Last(s[1..], c);
      if k < |s| - 1 then 1 + k else if s[0] == c then 0 else |s|
  }

  function Operation(committed: bool): string {
    if committed then "uninstall-committed" else "uninstall-prepared"
  }

  function StagingPath(prefix: string, staging: Name): string {
    prefix + "/versions/" + staging
  }

  function RemovedPath(prefix: string, removed: Name): string {
    prefix + "/" + removed
  }

  /** Three lines and the terminator of every authority file. */
  function Text(a: string, b: string, c: string): string {
    a + "\n" + (b + "\n" + (c + "\n\n"))
  }

  function Encode(j: Journal, prefix: string): string {
    match j
    case Installing(id, staging) => Text("install", id, StagingPath(prefix, staging))
    case Uninstalling(committed, removed, dir) => Text(Operation(committed), RemovedPath(prefix, removed), dir)
  }

  /** What recovery makes of a journal file; the command directory is compared afterwards. */
  function Decode(text: string, prefix: string): Result<Journal> {
    if ByteLength(text) > LIMIT then Err
    else DecodeLines(Lines(Trim(text)), prefix)
  }

  function DecodeLines(lines: seq<string>, prefix: string): Result<Journal> {
    if |lines| < 3 then Err
    else if lines[0] == "install" then
      if Parent(lines[2]) != Some(prefix + "/versions") then Err
      else Ok(Installing(lines[1], FileName(lines[2])))
    else if lines[0] == Operation(false) || lines[0] == Operation(true) then
      if Parent(lines[1]) != Some(prefix) || !(".removed-versions-" <= FileName(lines[1])) then Err
      else Ok(Uninstalling(lines[0] == Operation(true), FileName(lines[1]), lines[2]))
    else Err
  }

  /** The names the installer writes into a journal. */
  ghost predicate Written(j: Journal) {
    match j
    case Installing(id, staging) => ValidHash(id) && exists pid: nat :: staging == StagingName(id, pid)
    case Uninstalling(_, removed, _) => exists pid: nat :: removed == RemovedName(pid)
  }

  predicate EndsClean(s: string) {
    s != "" && !Whitespace(s[|s| - 1])
  }

  /** What a caller can check about the two directories before anything is written. */
  predicate Readable(j: Journal, prefix: string) {
    && ByteLength(Encode(j, prefix)) <= LIMIT
    && '\n' !in prefix
    && (j.Uninstalling? ==> '\n' !in j.dir && EndsClean(j.dir))
  }

  /** Characters that no line, path or trimming rule touches. */
  predicate Plain(s: string) {
    forall i | 0 <= i < |s| :: s[i] != '/' && s[i] != '\n' && !Whitespace(s[i])
  }

  lemma PlainNames(id: Name, pid: nat)
    requires ValidHash(id)
    ensures Plain(id) && Plain(StagingName(id, pid)) && StagingName(id, pid) != ""
  {
    DecimalIsDigits(pid);
    assert Plain(".install-") && Plain("-");
    assert Plain(id) && Plain(Decimal(pid));
    assert Plain(".install-" + id);
  }

  lemma PlainRemovedName(pid: nat)
    ensures Plain(RemovedName(pid)) && RemovedName(pid) != "" && ".removed-versions-" <= RemovedName(pid)
  {
    DecimalIsDigits(pid);
    assert Plain(".removed-versions-") && Plain(Decimal(pid));
  }

  lemma {:induction false} FindAt(s: string, c: char, t: string)
    requires c !in s
    ensures Find(s + [c] + t, c) == |s|
  {
    var all := s + [c] + t;
    var k := Find(all, c);
    assert all[|s|] == c && all[..|s|] == s;
  }

  lemma FirstLine(s: string, t: string)
    requires '\n' !in s
    ensures Lines(s + "\n" + t) == [Chomp(s)] + Lines(t)
  {
    FindAt(s, '\n', t);
    var all := s + "\n" + t;
    assert all[..|s|] == s && all[|s| + 1..] == t;
  }

  lemma OnlyLine(s: string)
    requires '\n' !in s && s != ""
    ensures Lines(s) == [s]
  {
  }

  predicate Blank(s: string) {
    forall i | 0 <= i < |s| :: Whitespace(s[i])
  }

  lemma {:induction false} TrimEndTail(s: string, w: string)
    requires EndsClean(s) && Blank(w)
    ensures TrimEnd(s + w) == s
    decreases |w|
  {
    if w == "" {
      assert s + w == s;
    } else {
      assert (s + w)[..|s + w| - 1] == s + w[..|w| - 1];
      TrimEndTail(s, w[..|w| - 1]);
    }
  }

  lemma LastAt(s: string, c: char, t: string)
    requires c !in t
    ensures Last(s + [c] + t, c) == |s|
  {
    var all := s + [c] + t;
    var k := Last(all, c);
    assert all[|s|] == c && all[|s| + 1..] == t;
  }

  lemma PathParts(dir: string, name: string)
    requires '/' !in name
    ensures Parent(dir + "/" + name) == Some(dir) && FileName(dir + "/" + name) == name
  {
    LastAt(dir, '/', name);
    var path := dir + "/" + name;
    assert path[..|dir|] == dir && path[|dir| + 1..] == name;
  }

  predicate CleanLine(s: string) {
    '\n' !in s && s != "" && s[|s| - 1] != '\r'
  }

  /** Trimming a journal text takes away its tail only. */
  lemma TrimText(a: string, b: string, c: string, kept: string)
    requires a != "" && !Whitespace(a[0]) && EndsClean(kept) && kept <= c && Blank(c[|kept|..])
    ensures Trim(Text(a, b, c)) == a + "\n" + (b + "\n" + kept)
  {
    var body, w := a + "\n" + (b + "\n" + kept), c[|kept|..] + "\n\n";
    assert c == kept + c[|kept|..];
    assert Text(a, b, c) == body + w;
    assert body[|body| - 1] == kept[|kept| - 1] && body[0] == a[0];
    TrimEndTail(body, w);
  }

  /** A last line of white space goes with the tail. */
  lemma TrimShortText(a: string, b: string, c: string)
    requires a != "" && !Whitespace(a[0]) && EndsClean(b) && Blank(c)
    ensures Trim(Text(a, b, c)) == a + "\n" + b
  {
    var body, w := a + "\n" + b, "\n" + (c + "\n\n");
    assert Text(a, b, c) == body + w;
    assert body[|body| - 1] == b[|b| - 1] && body[0] == a[0];
    TrimEndTail(body, w);
  }

  lemma ThreeLines(a: string, b: string, c: string)
    requires CleanLine(a) && CleanLine(b) && '\n' !in c && c != ""
    ensures Lines(a + "\n" + (b + "\n" + c)) == [a, b, c]
  {
    FirstLine(a, b + "\n" + c);
    FirstLine(b, c);
    OnlyLine(c);
  }

  lemma TwoLines(a: string, b: string)
    requires CleanLine(a) && '\n' !in b && b != ""
    ensures Lines(a + "\n" + b) == [a, b]
  {
    FirstLine(a, b);
    OnlyLine(b);
  }

  lemma CleanOperation(committed: bool)
    ensures CleanLine(Operation(committed)) && !Whitespace(Operation(committed)[0])
    ensures CleanLine("install") && !Whitespace("install"[0]) && Operation(committed) != "install"
  {
    assert Operation(committed)[0] == 'u';
  }

  lemma CleanPath(dir: string, name: string)
    requires '\n' !in dir && Plain(name) && name != ""
    ensures CleanLine(dir + "/" + name) && EndsClean(dir + "/" + name)
  {
    var path := dir + "/" + name;
    assert path[|path| - 1] == name[|name| - 1];
  }

  /** The lines of a text whose prefix and directory are as `Readable` asks. */
  lemma TextLines(a: string, b: string, c: string)
    requires CleanLine(a) && !Whitespace(a[0]) && CleanLine(b) && '\n' !in c && EndsClean(c)
    ensures Lines(Trim(Text(a, b, c))) == [a, b, c]
  {
    assert c[|c|..] == "";
    TrimText(a, b, c, c);
    ThreeLines(a, b, c);
  }

  lemma InstallLines(id: Name, pid: nat, prefix: string)
    requires ValidHash(id) && '\n' !in prefix
    ensures var path := StagingPath(prefix, StagingName(id, pid));
            && Lines(Trim(Text("install", id, path))) == ["install", id, path]
            && Parent(path) == Some(prefix + "/versions") && FileName(path) == StagingName(id, pid)
  {
    var staging := StagingName(id, pid);
    PlainNames(id, pid);
    assert prefix + "/versions" + "/" + staging == StagingPath(prefix, staging);
    CleanPath(prefix + "/versions", staging);
    CleanOperation(false);
    TextLines("install", id, StagingPath(prefix, staging));
    PathParts(prefix + "/versions", staging);
  }

  lemma UninstallLines(committed: bool, pid: nat, dir: Dir, prefix: string)
    requires '\n' !in prefix && '\n' !in dir && EndsClean(dir)
    ensures var path := RemovedPath(prefix, RemovedName(pid));
            && Lines(Trim(Text(Operation(committed), path, dir))) == [Operation(committed), path, dir]
            && Parent(path) == Some(prefix) && FileName(path) == RemovedName(pid)
  {
    PlainRemovedName(pid);
    CleanPath(prefix, RemovedName(pid));
    CleanOperation(committed);
    TextLines(Operation(committed), RemovedPath(prefix, RemovedName(pid)), dir);
    PathParts(prefix, RemovedName(pid));
  }

  lemma DecodeInstall(lines: seq<string>, id: Name, staging: Name, prefix: string)
    requires |lines| == 3 && lines[0] == "install" && lines[1] == id
    requires Parent(lines[2]) == Some(prefix + "/versions") && FileName(lines[2]) == staging
    ensures DecodeLines(lines, prefix) == Ok(Installing(id, staging))
  {
  }

  lemma DecodeUninstall(lines: seq<string>, committed: bool, removed: Name, dir: Dir, prefix: string)
    requires |lines| == 3 && lines[0] == Operation(committed) && lines[2] == dir
    requires Parent(lines[1]) == Some(prefix) && FileName(lines[1]) == removed && ".removed-versions-" <= removed
    ensures DecodeLines(lines, prefix) == Ok(Uninstalling(committed, removed, dir))
  {
    CleanOperation(committed);
    assert |Operation(true)| != |Operation(false)|;
  }

  lemma ReadableRoundTrip(j: Journal, prefix: string)
    requires Written(j) && Readable(j, prefix)
    ensures Decode(Encode(j, prefix), prefix) == Ok(j)
  {
    var lines := Lines(Trim(Encode(j, prefix)));
    match j
    case Installing(id, staging) =>
      var pid: nat :| staging == StagingName(id, pid);
      InstallLines(id, pid, prefix);
      DecodeInstall(lines, id, staging, prefix);
    case Uninstalling(committed, removed, dir) =>
      var pid: nat :| removed == RemovedName(pid);
      UninstallLines(committed, pid, dir, prefix);
      PlainRemovedName(pid);
      DecodeUninstall(lines, committed, removed, dir, prefix);
  }

  lemma {:induction false} LinesHaveNoFeed(s: string, i: nat)
    requires i < |Lines(s)|
    ensures '\n' !in Lines(s)[i]
  {
    var k := Find(s, '\n');
    if k < |s| && i > 0 {
      LinesHaveNoFeed(s[k + 1..], i - 1);
    } else if k == |s| {
      assert s[..k] == s;
    }
  }

  lemma FeedStays(a: string, b: string)
    requires a <= b && '\n' !in b
    ensures '\n' !in a
  {
    assert a == b[..|a|];
  }

  lemma {:induction false} TrimEndDrops(s: string)
    ensures TrimEnd(s) <= s && Blank(s[|TrimEnd(s)|..])
  {
    if s != "" && Whitespace(s[|s| - 1]) {
      TrimEndDrops(s[..|s| - 1]);
    }
  }

  /** A command directory that does not end clean is never read back. */
  lemma UncleanDirectory(a: string, b: string, c: string)
    requires CleanLine(a) && !Whitespace(a[0]) && CleanLine(b) && EndsClean(b) && '\n' !in c && !EndsClean(c)
    ensures |Lines(Trim(Text(a, b, c)))| >= 3 ==> Lines(Trim(Text(a, b, c)))[2] != c
  {
    var kept := TrimEnd(c);
    TrimEndDrops(c);
    FeedStays(kept, c);
    if kept == "" {
      assert c[|kept|..] == c;
      TrimShortText(a, b, c);
      TwoLines(a, b);
    } else {
      TrimText(a, b, c, kept);
      ThreeLines(a, b, kept);
    }
  }

  /** A decoded journal names the prefix, and a line holds no line feed. */
  lemma DecodedPrefix(j: Journal, prefix: string)
    requires Decode(Encode(j, prefix), prefix) == Ok(j)
    ensures '\n' !in prefix && (j.Uninstalling? ==> '\n' !in j.dir)
  {
    var text := Trim(Encode(j, prefix));
    var k := if j.Installing? then 2 else 1;
    LinesHaveNoFeed(text, k);
    LinesHaveNoFeed(text, 2);
    assert prefix <= Parent(Lines(text)[k]).value;
    FeedStays(prefix, Lines(text)[k]);
  }

  lemma OnlyReadableRoundTrips(j: Journal, prefix: string)
    requires Written(j) && Decode(Encode(j, prefix), prefix) == Ok(j)
    ensures Readable(j, prefix)
  {
    DecodedPrefix(j, prefix);
    if j.Uninstalling? && !EndsClean(j.dir) {
      var pid: nat :| j.removed == RemovedName(pid);
      PlainRemovedName(pid);
      CleanPath(prefix, j.removed);
      CleanOperation(j.committed);
      UncleanDirectory(Operation(j.committed), RemovedPath(prefix, j.removed), j.dir);
    }
  }

  lemma OneText(a: string, b: string, c: string)
    ensures Text(a, b, c) == a + "\n" + b + "\n" + c + "\n\n"
  {
  }

  /** The text that is written; and recovery reads the journal back from it exactly when the file is short enough, the
      prefix has no line feed and the command directory has none and does not end in white space. */
  lemma JournalRoundTrip(j: Journal, prefix: string)
    requires Written(j)
    ensures var text :=
        match j
        case Installing(id, staging) => "install" + "\n" + id + "\n" + (prefix + "/versions/" + staging) + "\n\n"
        case Uninstalling(committed, removed, dir) =>
          (if committed then "uninstall-committed" else "uninstall-prepared") + "\n" + (prefix + "/" + removed) + "\n" + dir + "\n\n";
      && Encode(j, prefix) == text
      && (Decode(text, prefix) == Ok(j) <==>
            && ByteLength(text) <= 4096 && '\n' !in prefix
            && (j.Uninstalling? ==> '\n' !in j.dir && j.dir != "" && !Whitespace(j.dir[|j.dir| - 1])))
  {
    match j {
      case Installing(id, staging) => OneText("install", id, prefix + "/versions/" + staging);
      case Uninstalling(committed, removed, dir) => OneText(Operation(committed), prefix + "/" + removed, dir);
    }
    if Readable(j, prefix) {
      ReadableRoundTrip(j, prefix);
    } else if Decode(Encode(j, prefix), prefix) == Ok(j) {
      OnlyReadableRoundTrips(j, prefix);
    }
  }
}
