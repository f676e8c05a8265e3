/** The self-contained logic of the JVM package syncer
    (vcs_syncer_jvm_packages.go): the class-file header decoder of section
    4.1 of The Java Virtual Machine Specification (the ClassFile structure),
    the scan of a jar for its first class file, the inference of the JVM
    release a library was compiled for, the rounding of that release to a
    stable one, and the extraction loop of `unzipJarFile`. Jar files are
    given as their list of entries; reading them is outside the model. */
module JvmPackages {
  import opened Wrappers
  import opened Strings
  import opened ArchivePaths

  newtype byte = x: int | 0 <= x < 256

  /** Class-file major version of Java 1.0: the release is the major version
      minus this. */
  const JvmMajorVersion0: int := 44

  /** The first four bytes of every class file. */
  const ClassFileMagic: int := 0xCAFEBABE

  /** An entry of a jar: its name, whether `Open` succeeds, and its bytes. */
  datatype ZipEntry = ZipEntry(name: string, readable: bool, content: seq<byte>)

  /** Why the inspection of a jar fails. */
  datatype JvmError =
    | EntryUnreadable(entry: string)
    | HeaderUnreadable(entry: string)
    | JarUnreadable
    | NotANumber(text: string)
    | CopyFailed(outputPath: string)

  // Rounding to a stable release

  /** The releases an index is built for: 8, 11 and 16, and every release
      after 16, for which no stable release is known yet. */
  predicate IsStableRelease(v: int) {
    v == 8 || v == 11 || v == 16 || v > 16
  }

  /** `roundJVMVersionToNearestStableVersion`: the oldest stable release
      that is at least the given one. */
  function RoundJvmVersion(javaVersion: int): (r: int)
    ensures IsStableRelease(r) && r >= javaVersion
    ensures forall s :: IsStableRelease(s) && s >= javaVersion ==> s >= r
  {
    if javaVersion <= 8 then 8
    else if javaVersion <= 11 then 11
    else if javaVersion <= 16 then 16
    else javaVersion
  }

  /** Rounding never goes below 8 or below its input, and never moves a
      stable release. */
  lemma RoundBounds(v: int)
    ensures RoundJvmVersion(v) >= 8 && RoundJvmVersion(v) >= v
    ensures IsStableRelease(v) <==> RoundJvmVersion(v) == v
  {
  }

  /** Rounding is monotone and idempotent. */
  lemma RoundMonotoneIdempotent(v: int, u: int)
    ensures v <= u ==> RoundJvmVersion(v) <= RoundJvmVersion(u)
    ensures RoundJvmVersion(RoundJvmVersion(v)) == RoundJvmVersion(v)
  {
  }

  // The class-file header

  /** A big-endian unsigned 16-bit number. */
  function BigEndian16(hi: byte, lo: byte): (r: nat)
    ensures r < 0x1_0000
  {
    hi as int * 0x100 + lo as int
  }

  /** A big-endian unsigned 32-bit number. */
  function BigEndian32(b0: byte, b1: byte, b2: byte, b3: byte): (r: nat)
    ensures r < 0x1_0000_0000
  {
    BigEndian16(b0, b1) * 0x1_0000 + BigEndian16(b2, b3)
  }

  /** `classFileEntryMajorVersion`: an entry that cannot be opened, or
      whose first read gives fewer than 8 bytes, is an error; a header
      without the class-file magic gives "", meaning "not a class file";
      otherwise the decimal major version, the big-endian number at bytes 6
      and 7, after the minor version at bytes 4 and 5. */
  function EntryMajorVersion(e: ZipEntry): (r: Result<string, JvmError>)
    ensures r.Err? <==> !e.readable || |e.content| < 8
    ensures r.Ok? ==> r.value == "" || Atoi(r.value).Some?
  {
    if !e.readable then Err(EntryUnreadable(e.name))
    else if |e.content| < 8 then Err(HeaderUnreadable(e.name))
    else
      var h := e.content;
      if BigEndian32(h[0], h[1], h[2], h[3]) != ClassFileMagic then Ok("")
      else
        AtoiItoa(BigEndian16(h[6], h[7]));
        Ok(Itoa(BigEndian16(h[6], h[7])))
  }

  /** The 8-byte header of a class file with the given versions. */
  function ClassFileHeader(minor: nat, major: nat): (h: seq<byte>)
    requires minor < 0x1_0000 && major < 0x1_0000
    ensures |h| == 8
  {
    [0xCA, 0xFE, 0xBA, 0xBE,
     (minor / 0x100) as byte, (minor % 0x100) as byte,
     (major / 0x100) as byte, (major % 0x100) as byte]
  }

  /** Decoding the header of a class file gives back its major version,
      whatever follows the header. */
  lemma HeaderRoundTrip(name: string, minor: nat, major: nat, body: seq<byte>)
    requires minor < 0x1_0000 && major < 0x1_0000
    ensures EntryMajorVersion(ZipEntry(name, true, ClassFileHeader(minor, major) + body)) == Ok(Itoa(major))
    ensures Atoi(Itoa(major)) == Some(major)
  {
    var h := ClassFileHeader(minor, major) + body;
    assert h[6] as int == major / 0x100 && h[7] as int == major % 0x100;
    AtoiItoa(major);
  }

  /** The big-endian reading of four bytes is the magic exactly when the
      bytes are CA FE BA BE. */
  lemma MagicBytes(b0: byte, b1: byte, b2: byte, b3: byte)
    ensures BigEndian32(b0, b1, b2, b3) == ClassFileMagic <==> [b0, b1, b2, b3] == [0xCA, 0xFE, 0xBA, 0xBE]
  {
    if BigEndian32(b0, b1, b2, b3) == ClassFileMagic {
      assert BigEndian16(b0, b1) == 0xCAFE;
      assert b0 == 0xCA;
    }
  }

  /** Any readable entry of 8 bytes or more whose first bytes are not the
      magic is "not a class file". */
  lemma NotAClassFile(e: ZipEntry)
    requires e.readable && |e.content| >= 8
    requires e.content[..4] != [0xCA, 0xFE, 0xBA, 0xBE]
    ensures EntryMajorVersion(e) == Ok("")
  {
    MagicBytes(e.content[0], e.content[1], e.content[2], e.content[3]);
    assert e.content[..4] == [e.content[0], e.content[1], e.content[2], e.content[3]];
  }

  // Scanning a jar

  /** Entries whose name ends in `.class`. */
  predicate IsClassEntry(e: ZipEntry) {
    HasSuffix(e.name, ".class")
  }

  /** `classFileMajorVersion` as written: other entries are skipped, an
      entry that is "not a class file" too, the first major version found is
      the answer, and "8" is the answer for a jar without class files. An
      entry that cannot be read ends the scan with "" and no error. */
  function ScanAsWritten(entries: seq<ZipEntry>): Result<string, JvmError>
    decreases |entries|
  {
    if entries == [] then Ok("8")
    else if !IsClassEntry(entries[0]) then ScanAsWritten(entries[1..])
    else
      match EntryMajorVersion(entries[0])
      case Err(_) => Ok("")
      case Ok(v) => if v == "" then ScanAsWritten(entries[1..]) else Ok(v)
  }

  /** `classFileMajorVersion` with the error of an unreadable entry passed
      on, as the surrounding code intends. */
  function Scan(entries: seq<ZipEntry>): Result<string, JvmError>
    decreases |entries|
  {
    if entries == [] then Ok("8")
    else if !IsClassEntry(entries[0]) then Scan(entries[1..])
    else
      match EntryMajorVersion(entries[0])
      case Err(e) => Err(e)
      case Ok(v) => if v == "" then Scan(entries[1..]) else Ok(v)
  }

  /** The scan loop of `classFileMajorVersion`, over the entries of a jar
      that could be opened. */
  method ClassFileMajorVersion(jar: Result<seq<ZipEntry>, JvmError>) returns (r: Result<string, JvmError>)
    ensures jar.Err? ==> r == Err(jar.error)
    ensures jar.Ok? ==> r == Scan(jar.value)
  {
    if jar.Err? {
      return Err(jar.error);
    }
    var entries := jar.value;
    for i := 0 to |entries|
      invariant Scan(entries) == Scan(entries[i..])
    {
      assert entries[i..][1..] == entries[i + 1..];
      if !HasSuffix(entries[i].name, ".class") {
        continue;
      }
      var version := EntryMajorVersion(entries[i]);
      if version.Err? {
        return Err(version.error);
      }
      if version.value == "" {
        continue;
      }
      return Ok(version.value);
    }
    assert entries[|entries|..] == [];
    return Ok("8");
  }

  /** A class entry that ends the scan: a class file, or unreadable. */
  predicate Answers(e: ZipEntry) {
    IsClassEntry(e) && EntryMajorVersion(e) != Ok("")
  }

  /** The answer of a scan is that of the first class entry that is a class
      file or cannot be read: its major version, or its error. */
  lemma {:induction false} ScanFindsFirst(entries: seq<ZipEntry>, k: nat)
    requires k < |entries| && Answers(entries[k])
    requires forall i :: 0 <= i < k ==> !Answers(entries[i])
    ensures Scan(entries) == EntryMajorVersion(entries[k])
    decreases k
  {
    if k > 0 {
      var rest := entries[1..];
      assert forall i :: 0 <= i < k - 1 ==> rest[i] == entries[i + 1];
      assert !Answers(entries[0]);
      ScanFindsFirst(rest, k - 1);
    }
  }

  /** Without such an entry the scan answers "8". */
  lemma {:induction false} ScanDefault(entries: seq<ZipEntry>)
    requires forall i :: 0 <= i < |entries| ==> !Answers(entries[i])
    ensures Scan(entries) == Ok("8")
    decreases |entries|
  {
    if entries != [] {
      assert !Answers(entries[0]);
      assert forall i :: 0 <= i < |entries[1..]| ==> entries[1..][i] == entries[i + 1];
      ScanDefault(entries[1..]);
    }
  }

  /** Whatever the corrected scan answers parses as a number. */
  lemma {:induction false} ScanAnswersANumber(entries: seq<ZipEntry>)
    requires Scan(entries).Ok?
    ensures Atoi(Scan(entries).value).Some?
    decreases |entries|
  {
    if entries != [] && IsClassEntry(entries[0]) {
      var e := entries[0];
      if EntryMajorVersion(e).Ok? && EntryMajorVersion(e).value != "" {
        var h := e.content;
        AtoiItoa(BigEndian16(h[6], h[7]));
      } else {
        ScanAnswersANumber(entries[1..]);
      }
    } else if entries != [] {
      ScanAnswersANumber(entries[1..]);
    } else {
      assert Atoi("8") == Some(8) by { assert AllDigits("8"); }
    }
  }

  /** As written, a jar whose first class entry has a short header is
      answered with "" and no error, which the caller then fails to parse as
      a number; the corrected scan reports the unreadable header. */
  lemma ShortHeaderSwallowed()
    ensures var jar := [ZipEntry("A.class", true, [0xCA, 0xFE])];
      ScanAsWritten(jar) == Ok("") && Atoi("") == None
      && Scan(jar) == Err(HeaderUnreadable("A.class"))
  {
    var jar := [ZipEntry("A.class", true, [0xCA, 0xFE])];
    assert IsClassEntry(jar[0]) by { assert "A.class"[1..] == ".class"; }
  }

  // Inferring the JVM release

  /** `inferJVMVersionFromByteCode` for the dependency `version`, with the
      jar fetched from the registry (`byteCode`): a JDK is compiled for its
      own version; otherwise the major version of the jar's first class file
      is turned into a release and rounded to a stable one. */
  function InferJvmVersion(isJdk: bool, version: string, byteCode: Result<seq<ZipEntry>, JvmError>): Result<string, JvmError> {
    if isJdk then Ok(version)
    else if byteCode.Err? then Err(byteCode.error)
    else
      match Scan(byteCode.value)
      case Err(e) => Err(e)
      case Ok(majorVersionString) =>
        match Atoi(majorVersionString)
        case None => Err(NotANumber(majorVersionString))
        case Some(majorVersion) =>
          var rounded := RoundJvmVersion(majorVersion - JvmMajorVersion0);
          Ok(Itoa(rounded))
  }

  /** A JDK's release is its version; no byte code is inspected. */
  lemma JdkIsItsOwnVersion(version: string, byteCode: Result<seq<ZipEntry>, JvmError>)
    ensures InferJvmVersion(true, version, byteCode) == Ok(version)
    ensures InferJvmVersion(true, version, byteCode) == InferJvmVersion(true, version, Err(JarUnreadable))
  {
  }

  /** A library whose first class file has major version `major` is indexed
      with the rounded release `major - 44`: 52 gives 8, 55 gives 11. */
  lemma InferFromFirstClassFile(name: string, minor: nat, major: nat, body: seq<byte>, rest: seq<ZipEntry>)
    requires minor < 0x1_0000 && major < 0x1_0000
    requires HasSuffix(name, ".class")
    ensures var jar := [ZipEntry(name, true, ClassFileHeader(minor, major) + body)] + rest;
      InferJvmVersion(false, "", Ok(jar)) == Ok(Itoa(RoundJvmVersion(major - JvmMajorVersion0)))
    ensures major == 52 ==> RoundJvmVersion(major - JvmMajorVersion0) == 8
    ensures major == 55 ==> RoundJvmVersion(major - JvmMajorVersion0) == 11
  {
    HeaderRoundTrip(name, minor, major, body);
  }

  /** A jar without class files gives the default major string "8", which
      the subtraction turns into -36 and the rounding into release 8. */
  lemma NoClassFilesGives8(entries: seq<ZipEntry>)
    requires forall i :: 0 <= i < |entries| ==> !IsClassEntry(entries[i])
    ensures InferJvmVersion(false, "", Ok(entries)) == Ok("8")
  {
    ScanDefault(entries);
    assert Atoi("8") == Some(8) by { assert AllDigits("8"); }
  }

  /** With the corrected scan an inferred release is always a stable
      release, and the only failures are those of the jar. */
  lemma InferredReleaseIsStable(version: string, byteCode: Result<seq<ZipEntry>, JvmError>)
    requires InferJvmVersion(false, version, byteCode).Ok?
    ensures exists v :: IsStableRelease(v) && InferJvmVersion(false, version, byteCode).value == Itoa(v)
  {
    ScanAnswersANumber(byteCode.value);
    var m := Atoi(Scan(byteCode.value).value).value;
  }

  // Extracting a jar

  /** The files written so far, by path. */
  class FileTree {
    var files: map<string, seq<byte>>

    constructor ()
      ensures files == map[]
    {
      files := map[];
    }

    /** `copyZipFileEntry`: fails when the entry cannot be opened or the
        output path cannot be written; otherwise the file holds the entry's
        bytes. */
    method CopyEntry(e: ZipEntry, outputPath: string, writeFails: set<string>) returns (ok: bool)
      modifies this
      ensures ok == (e.readable && outputPath !in writeFails)
      ensures files == if ok then old(files)[outputPath := e.content] else old(files)
    {
      ok := e.readable && outputPath !in writeFails;
      if ok {
        files := files[outputPath := e.content];
      }
    }
  }

  /** The destination directory of `unzipJarFile`: one trailing separator
      removed, then one added. */
  function DestinationDirectory(destination: string): (d: string)
    ensures d != [] && d[|d| - 1] == Separator
  {
    TrimSuffix(destination, [Separator]) + [Separator]
  }

  /** The destination keeps an ending that is already a single separator
      and gains one otherwise; it never ends in two separators unless the
      destination did. */
  lemma DestinationDirectoryShape(destination: string)
    ensures HasSuffix(destination, [Separator]) ==> DestinationDirectory(destination) == destination
    ensures !HasSuffix(destination, [Separator]) ==> DestinationDirectory(destination) == destination + [Separator]
    ensures var d := DestinationDirectory(destination);
      !HasSuffix(destination, [Separator, Separator]) ==> !HasSuffix(d, [Separator, Separator])
  {
    var d := DestinationDirectory(destination);
    if HasSuffix(destination, [Separator]) {
      assert TrimSuffix(destination, [Separator]) + [Separator] == destination;
    } else if destination != [] {
      assert destination[|destination| - 1..] == [destination[|destination| - 1]];
      assert d[|d| - 2..] == [destination[|destination| - 1], Separator];
    }
  }

  /** The outcome of extracting the entries from index `i` on. */
  datatype UnzipOutcome = UnzipOutcome(files: map<string, seq<byte>>, result: Result<(), JvmError>)

  /** The loop of `unzipJarFile`: rejected entries are skipped, accepted
      ones copied to their cleaned path, and the first failing copy ends the
      extraction with its error. */
  function Extract(dir: string, entries: seq<ZipEntry>, i: nat, writeFails: set<string>,
                   files: map<string, seq<byte>>): UnzipOutcome
    requires i <= |entries|
    decreases |entries| - i
  {
    if i == |entries| then UnzipOutcome(files, Ok(()))
    else
      var (outputPath, rejected) := IsPotentiallyMaliciousFilepathInArchive(entries[i].name, dir);
      if rejected then Extract(dir, entries, i + 1, writeFails, files)
      else if !entries[i].readable || outputPath in writeFails then UnzipOutcome(files, Err(CopyFailed(outputPath)))
      else Extract(dir, entries, i + 1, writeFails, files[outputPath := entries[i].content])
  }

  /** `unzipJarFile(jar, destination)` writing into `fs`. */
  method UnzipJarFile(jar: Result<seq<ZipEntry>, JvmError>, destination: string, writeFails: set<string>, fs: FileTree)
    returns (r: Result<(), JvmError>)
    modifies fs
    ensures jar.Err? ==> r == Err(jar.error) && fs.files == old(fs.files)
    ensures jar.Ok? ==>
      Extract(DestinationDirectory(destination), jar.value, 0, writeFails, old(fs.files)) == UnzipOutcome(fs.files, r)
  {
    if jar.Err? {
      return Err(jar.error);
    }
    var entries := jar.value;
    var destinationDirectory := TrimSuffix(destination, [Separator]) + [Separator];
    for i := 0 to |entries|
      invariant Extract(destinationDirectory, entries, 0, writeFails, old(fs.files))
        == Extract(destinationDirectory, entries, i, writeFails, fs.files)
    {
      var (cleanedOutputPath, isPotentiallyMalicious) :=
        IsPotentiallyMaliciousFilepathInArchive(entries[i].name, destinationDirectory);
      if isPotentiallyMalicious {
        continue;
      }
      var ok := fs.CopyEntry(entries[i], cleanedOutputPath, writeFails);
      if !ok {
        return Err(CopyFailed(cleanedOutputPath));
      }
    }
    return Ok(());
  }

  /** Every file an extraction creates or overwrites lies strictly inside
      the destination directory, whatever the entry names. */
  lemma {:induction false} ExtractStaysInside(dir: string, entries: seq<ZipEntry>, i: nat, writeFails: set<string>,
                                              files: map<string, seq<byte>>)
    requires i <= |entries| && IsDirectoryPrefix(dir)
    ensures var out := Extract(dir, entries, i, writeFails, files).files;
      forall p :: p in out && (p !in files || out[p] != files[p]) ==> StrictlyUnder(p, dir)
    decreases |entries| - i
  {
    if i < |entries| {
      ExtractStep(dir, entries, i, writeFails, files);
      if !CopyFails(dir, entries[i], writeFails) {
        var next := AfterEntry(dir, entries[i], files);
        if !IsPotentiallyMaliciousFilepathInArchive(entries[i].name, dir).1 {
          AcceptedPathStaysInside(entries[i].name, dir);
        }
        ExtractStaysInside(dir, entries, i + 1, writeFails, next);
      }
    }
  }

  /** The files after an entry whose copy does not fail: unchanged for a
      rejected entry, otherwise with the entry written to its output path. */
  function AfterEntry(dir: string, e: ZipEntry, files: map<string, seq<byte>>): map<string, seq<byte>> {
    var (outputPath, rejected) := IsPotentiallyMaliciousFilepathInArchive(e.name, dir);
    if rejected then files else files[outputPath := e.content]
  }

  /** One step of the extraction: a failing copy ends it with its error,
      any other entry moves on to the next. */
  lemma ExtractStep(dir: string, entries: seq<ZipEntry>, i: nat, writeFails: set<string>,
                    files: map<string, seq<byte>>)
    requires i < |entries|
    ensures CopyFails(dir, entries[i], writeFails) ==>
      Extract(dir, entries, i, writeFails, files)
        == UnzipOutcome(files, Err(CopyFailed(IsPotentiallyMaliciousFilepathInArchive(entries[i].name, dir).0)))
    ensures !CopyFails(dir, entries[i], writeFails) ==>
      Extract(dir, entries, i, writeFails, files)
        == Extract(dir, entries, i + 1, writeFails, AfterEntry(dir, entries[i], files))
  {
  }

  /** An extraction fails exactly when an accepted entry cannot be
      copied. */
  lemma {:induction false} ExtractFailsIff(dir: string, entries: seq<ZipEntry>, i: nat,
                                           writeFails: set<string>, files: map<string, seq<byte>>)
    requires i <= |entries|
    ensures Extract(dir, entries, i, writeFails, files).result.Err? <==>
      exists k :: i <= k < |entries| && CopyFails(dir, entries[k], writeFails)
    decreases |entries| - i
  {
    if i < |entries| {
      ExtractStep(dir, entries, i, writeFails, files);
      if !CopyFails(dir, entries[i], writeFails) {
        ExtractFailsIff(dir, entries, i + 1, writeFails, AfterEntry(dir, entries[i], files));
        ShiftFailingEntry(dir, entries, i, writeFails);
      }
    }
  }

  /** Starting one entry later changes nothing when the first entry's copy
      does not fail. */
  lemma ShiftFailingEntry(dir: string, entries: seq<ZipEntry>, i: nat, writeFails: set<string>)
    requires i < |entries| && !CopyFails(dir, entries[i], writeFails)
    ensures (exists k :: i <= k < |entries| && CopyFails(dir, entries[k], writeFails))
      <==> (exists k :: i + 1 <= k < |entries| && CopyFails(dir, entries[k], writeFails))
  {
    if exists k :: i <= k < |entries| && CopyFails(dir, entries[k], writeFails) {
      var k :| i <= k < |entries| && CopyFails(dir, entries[k], writeFails);
      assert k != i;
    }
  }

  /** The first accepted entry that cannot be copied ends the extraction
      with an error naming its output path; no later entry is written. */
  lemma {:induction false} ExtractStopsAtFirstCopyError(dir: string, entries: seq<ZipEntry>, i: nat, k: nat,
                                                        writeFails: set<string>, files: map<string, seq<byte>>)
    requires i <= k < |entries| && CopyFails(dir, entries[k], writeFails)
    requires forall j :: i <= j < k ==> !CopyFails(dir, entries[j], writeFails)
    ensures Extract(dir, entries, i, writeFails, files).result
      == Err(CopyFailed(IsPotentiallyMaliciousFilepathInArchive(entries[k].name, dir).0))
    decreases k - i
  {
    ExtractStep(dir, entries, i, writeFails, files);
    if i < k {
      ExtractStopsAtFirstCopyError(dir, entries, i + 1, k, writeFails, AfterEntry(dir, entries[i], files));
    }
  }

  /** An accepted entry whose copy fails. */
  predicate CopyFails(dir: string, e: ZipEntry, writeFails: set<string>) {
    var (outputPath, rejected) := IsPotentiallyMaliciousFilepathInArchive(e.name, dir);
    !rejected && (!e.readable || outputPath in writeFails)
  }
}
