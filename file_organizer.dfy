/** FileOrganizer: moves files into a bucket directory under a target path,
    the bucket named after a date ("yyyyMMdd", "yyyyMM" or the year), taken
    from the file's creation time or from a date-stamped file name. The file
    system is a map from file paths to creation times and a set of
    directories. */
module Organizer {
  import opened Outcomes
  import opened Text
  import opened Paths
  import opened Calendar
  import opened StampedBase
  import DateStamped
  import DateTimeStamped

  /** FileOrganizerMode. `Unnamed` is a value of the enum outside its three
      names, which the switch sends to its default arm. */
  datatype FileOrganizerMode = Date | YearMonth | Year | Unnamed(value: int)

  /** GetDirectory(): the bucket for a date. It is a single run of digits,
      so it names one directory level. */
  function GetDirectory(date: DateTime, mode: FileOrganizerMode): (bucket: string)
    ensures IsDigits(bucket)
  {
    match mode
    case YearMonth => FormatYearMonth(date)
    case Year => FormatYear(date)
    case _ => FormatYearMonthDay(date)
  }

  /** The bucket reads back as the date it came from: the day for Date and
      for the default arm, the year and month for YearMonth, the year,
      unpadded, for Year. */
  lemma {:induction false} GetDirectoryReadsBack(date: DateTime, mode: FileOrganizerMode)
    ensures mode.Date? || mode.Unnamed? ==> ParseYearMonthDay(GetDirectory(date, mode)) == Success(DateOf(date))
    ensures mode.YearMonth? ==>
      && |GetDirectory(date, mode)| == 6
      && DigitsValue(GetDirectory(date, mode)[..4]) == date.year
      && DigitsValue(GetDirectory(date, mode)[4..]) == date.month
    ensures mode.Year? ==>
      && DigitsValue(GetDirectory(date, mode)) == date.year
      && (GetDirectory(date, mode)[0] == '0' ==> GetDirectory(date, mode) == "0")
  {
    match mode
    case YearMonth =>
    case Year =>
    case _ =>
      ParseFormatYearMonthDay(date);
  }

  // ---------------------------------------------------------------------
  // The file system

  /** What the organizer sees of a file system: each file's creation time,
      and the directories. */
  datatype Disk = Disk(files: map<string, DateTime>, directories: set<string>)

  /** The disk after an operation, and the exception it raised, if any. */
  datatype Step = Step(disk: Disk, error: Option<Error>)

  /** The directory a directory path names: "dir/" and "dir" are the same
      directory, so one final '/' is dropped, except from the root "/". */
  function DirectoryKey(path: string): (key: string)
    ensures |key| <= |path| && key == path[..|key|]
    ensures key == "" <==> path == ""
  {
    if |path| > 1 && path[|path| - 1] == '/' then path[..|path| - 1] else path
  }

  /** Directory.Exists: false for the empty path. */
  predicate DirectoryExists(disk: Disk, path: string) {
    path != "" && DirectoryKey(path) in disk.directories
  }

  /** File.GetCreationTime of a non-empty path: for a missing file,
      1601-01-01 rather than an exception. */
  function CreationTime(disk: Disk, path: string): DateTime {
    if path in disk.files then disk.files[path] else Moment(1601, 1, 1, 0, 0, 0, 0)
  }

  /** Directory.CreateDirectory: ArgumentException for an empty path,
      IOException where a file is in the way. It never touches a file; when
      it succeeds the directory exists and it is the only one added. */
  function CreateDirectoryEffect(disk: Disk, path: string): (r: Step)
    ensures r.disk.files == disk.files
    ensures r.error.None? <==> path != "" && DirectoryKey(path) !in disk.files
    ensures path == "" ==> r.error == Some(ArgumentError)
    ensures r.error.None? ==> DirectoryExists(r.disk, path) && r.disk.directories == disk.directories + {DirectoryKey(path)}
    ensures r.error.Some? ==> r.disk == disk
  {
    if path == "" then Step(disk, Some(ArgumentError))
    else if DirectoryKey(path) in disk.files then Step(disk, Some(IOError))
    else Step(disk.(directories := disk.directories + {DirectoryKey(path)}), None)
  }

  /** A directory path with one final '/' names the same directory as the
      path without it: it exists, is created and is listed alike. */
  lemma {:induction false} FinalSlashIsSameDirectory(disk: Disk, dir: string, wildcard: string -> bool, listing: seq<string>)
    requires dir != "" && dir[|dir| - 1] != '/'
    ensures DirectoryExists(disk, dir + "/") <==> DirectoryExists(disk, dir)
    ensures CreateDirectoryEffect(disk, dir + "/") == CreateDirectoryEffect(disk, dir)
    ensures IsListing(disk, dir + "/", wildcard, listing) <==> IsListing(disk, dir, wildcard, listing)
  {
    assert DirectoryKey(dir + "/") == (dir + "/")[..|dir|] == dir;
  }

  /** File.Move without overwrite: ArgumentException for an empty source or
      destination, FileNotFoundException for a missing source or one that
      ends in '/' and so names no file, IOException for a destination that
      is an existing file or directory, and
      DirectoryNotFoundException when the destination's directory is
      missing; otherwise the file changes path and keeps its creation time.
      A move touches no directory; when it succeeds, the source path is gone
      and the destination holds the source's creation time; when it fails,
      nothing has changed. */
  function MoveEffect(disk: Disk, src: string, dst: string): (r: Step)
    ensures r.disk.directories == disk.directories
    ensures r.error.Some? ==> r.disk == disk
    ensures src == "" || dst == "" ==> r.error == Some(ArgumentError)
    ensures r.error.None? <==>
      && src in disk.files && GetFileName(src) != "" && dst != "" && dst !in disk.files
      && !DirectoryExists(disk, dst)
      && (GetDirectoryName(dst) == "" || DirectoryExists(disk, GetDirectoryName(dst)))
    ensures r.error.None? ==>
            src != dst && src !in r.disk.files && dst in r.disk.files && r.disk.files[dst] == disk.files[src]
  {
    if src == "" || dst == "" then Step(disk, Some(ArgumentError))
    else if src !in disk.files || GetFileName(src) == "" then Step(disk, Some(FileNotFound))
    else if dst in disk.files || DirectoryExists(disk, dst) then Step(disk, Some(IOError))
    else if GetDirectoryName(dst) != "" && !DirectoryExists(disk, GetDirectoryName(dst)) then
      Step(disk, Some(DirectoryNotFound))
    else Step(disk.(files := (disk.files - {src})[dst := disk.files[src]]), None)
  }

  /** The directory listing Directory.GetFiles(sourcePath, wildcard) returns:
      each file directly in the directory whose name the wildcard accepts,
      once, in some order. */
  predicate IsListing(disk: Disk, sourcePath: string, wildcard: string -> bool, listing: seq<string>) {
    && (forall i, j :: 0 <= i < j < |listing| ==> listing[i] != listing[j])
    && (forall f :: f in listing ==> f in disk.files && GetDirectoryName(f) == DirectoryKey(sourcePath) && wildcard(GetFileName(f)))
    && (forall f :: f in disk.files && GetDirectoryName(f) == DirectoryKey(sourcePath) && wildcard(GetFileName(f)) ==> f in listing)
  }

  /** The elements of a set, each once, in some order. */
  method Enumerate(s: set<string>) returns (listing: seq<string>)
    ensures forall i, j :: 0 <= i < j < |listing| ==> listing[i] != listing[j]
    ensures forall f :: f in listing ==> f in s
    ensures forall f :: f in s ==> f in listing
  {
    var remaining := s;
    listing := [];
    while remaining != {}
      invariant remaining <= s
      invariant forall i, j :: 0 <= i < j < |listing| ==> listing[i] != listing[j]
      invariant forall f :: f in listing ==> f in s && f !in remaining
      invariant forall f :: f in s ==> f in listing || f in remaining
      decreases |remaining|
    {
      var f :| f in remaining;
      listing := listing + [f];
      remaining := remaining - {f};
    }
  }

  /** A file system whose files and directories change in place. */
  class FileSystem {
    var files: map<string, DateTime>
    var directories: set<string>

    function Contents(): Disk
      reads this
    {
      Disk(files, directories)
    }

    constructor (files: map<string, DateTime>, directories: set<string>)
      ensures Contents() == Disk(files, directories)
    {
      this.files := files;
      this.directories := directories;
    }

    /** File.GetCreationTime: ArgumentException for an empty path. */
    method GetCreationTime(path: string) returns (r: Result<DateTime, Error>)
      ensures r.Failure? <==> path == ""
      ensures r.Failure? ==> r.error == ArgumentError
      ensures r.Success? ==> r.value == CreationTime(Contents(), path)
    {
      if path == "" {
        return Failure(ArgumentError);
      }
      return Success(if path in files then files[path] else Moment(1601, 1, 1, 0, 0, 0, 0));
    }

    /** Directory.Exists. */
    method Exists(path: string) returns (b: bool)
      ensures b == DirectoryExists(Contents(), path)
    {
      b := path != "" && DirectoryKey(path) in directories;
    }

    /** Directory.CreateDirectory. */
    method CreateDirectory(path: string) returns (err: Option<Error>)
      modifies this
      ensures Step(Contents(), err) == CreateDirectoryEffect(old(Contents()), path)
    {
      if path == "" {
        return Some(ArgumentError);
      }
      var key := DirectoryKey(path);
      if key in files {
        return Some(IOError);
      }
      directories := directories + {key};
      return None;
    }

    /** File.Move. */
    method Move(src: string, dst: string) returns (err: Option<Error>)
      modifies this
      ensures Step(Contents(), err) == MoveEffect(old(Contents()), src, dst)
    {
      if src == "" || dst == "" {
        return Some(ArgumentError);
      }
      if src !in files || GetFileName(src) == "" {
        return Some(FileNotFound);
      }
      if dst in files || DirectoryKey(dst) in directories {
        return Some(IOError);
      }
      var dir := GetDirectoryName(dst);
      if dir != "" && DirectoryKey(dir) !in directories {
        return Some(DirectoryNotFound);
      }
      files := (files - {src})[dst := files[src]];
      return None;
    }

    /** Directory.GetFiles(sourcePath, wildcard): ArgumentException for an
        empty path, DirectoryNotFoundException for a missing directory; the
        wildcard is given by the file names it accepts. */
    method GetFiles(sourcePath: string, wildcard: string -> bool) returns (r: Result<seq<string>, Error>)
      ensures r.Failure? <==> !DirectoryExists(Contents(), sourcePath)
      ensures r.Failure? ==> r.error == (if sourcePath == "" then ArgumentError else DirectoryNotFound)
      ensures r.Success? ==> IsListing(Contents(), sourcePath, wildcard, r.value)
    {
      if sourcePath == "" {
        return Failure(ArgumentError);
      }
      var key := DirectoryKey(sourcePath);
      if key !in directories {
        return Failure(DirectoryNotFound);
      }
      var wanted := set f | f in files && GetDirectoryName(f) == key && wildcard(GetFileName(f));
      var listing := Enumerate(wanted);
      return Success(listing);
    }
  }

  // ---------------------------------------------------------------------
  // OrganizeHelper

  /** Where OrganizeHelper moves a file: targetPath / bucket / file name. */
  function Destination(src: string, targetPath: string, date: DateTime, mode: FileOrganizerMode): string {
    Combine(Combine(targetPath, GetDirectory(date, mode)), GetFileName(src))
  }

  /** The first half of OrganizeHelper: create targetPath when it does not
      exist. It touches no file and adds no directory but the target path,
      and when it succeeds the target path exists. */
  function PrepareTarget(disk: Disk, targetPath: string): (r: Step)
    ensures r.disk.files == disk.files
    ensures disk.directories <= r.disk.directories <= disk.directories + {DirectoryKey(targetPath)}
    ensures r.error.None? <==>
      targetPath != "" && (DirectoryKey(targetPath) in disk.directories || DirectoryKey(targetPath) !in disk.files)
    ensures r.error.None? ==> DirectoryExists(r.disk, targetPath)
  {
    if DirectoryExists(disk, targetPath) then Step(disk, None) else CreateDirectoryEffect(disk, targetPath)
  }

  /** OrganizeHelper: create targetPath when it does not exist, then move the
      file into the bucket under it. The only directory it ever creates is
      the target path, and when it fails no file has moved. */
  function HelperEffect(disk: Disk, src: string, targetPath: string, date: DateTime, mode: FileOrganizerMode): (r: Step)
    ensures r.disk.directories <= disk.directories + {DirectoryKey(targetPath)}
    ensures r.error.Some? ==> r.disk.files == disk.files
  {
    var created := PrepareTarget(disk, targetPath);
    if created.error.Some? then created
    else MoveEffect(created.disk, src, Destination(src, targetPath, date, mode))
  }

  method OrganizeHelper(fs: FileSystem, src: string, targetPath: string, date: DateTime, mode: FileOrganizerMode)
    returns (err: Option<Error>)
    modifies fs
    ensures Step(fs.Contents(), err) == HelperEffect(old(fs.Contents()), src, targetPath, date, mode)
  {
    var present := fs.Exists(targetPath);
    if !present {
      err := fs.CreateDirectory(targetPath);
      if err.Some? {
        return;
      }
    }
    err := fs.Move(src, Destination(src, targetPath, date, mode));
  }

  /** The bucket directory under the target path. */
  function BucketPath(targetPath: string, date: DateTime, mode: FileOrganizerMode): string {
    Combine(targetPath, GetDirectory(date, mode))
  }

  /** The destination of a source path naming a file keeps the file's name
      and lies directly in the bucket directory, which is never the target
      path itself. */
  lemma {:induction false} DestinationParts(src: string, targetPath: string, date: DateTime, mode: FileOrganizerMode)
    requires GetFileName(src) != ""
    ensures GetFileName(Destination(src, targetPath, date, mode)) == GetFileName(src)
    ensures GetDirectoryName(Destination(src, targetPath, date, mode)) == BucketPath(targetPath, date, mode)
    ensures BucketPath(targetPath, date, mode) != DirectoryKey(targetPath) && BucketPath(targetPath, date, mode) != ""
    ensures DirectoryKey(BucketPath(targetPath, date, mode)) == BucketPath(targetPath, date, mode)
    ensures Destination(src, targetPath, date, mode) != ""
    ensures DirectoryKey(Destination(src, targetPath, date, mode)) != DirectoryKey(targetPath)
  {
    var bucket := GetDirectory(date, mode);
    var dir := BucketPath(targetPath, date, mode);
    assert dir[|dir| - 1] == bucket[|bucket| - 1];
    CombineParts(dir, GetFileName(src));
  }

  /** OrganizeHelper succeeds exactly when the target path exists or can be
      created, the file exists, no file or directory is at the destination
      yet, and the bucket directory already exists: it is never created. */
  lemma {:induction false} HelperSucceedsIff(disk: Disk, src: string, targetPath: string, date: DateTime, mode: FileOrganizerMode)
    ensures HelperEffect(disk, src, targetPath, date, mode).error.None? <==>
      && targetPath != ""
      && (DirectoryKey(targetPath) in disk.directories || DirectoryKey(targetPath) !in disk.files)
      && src in disk.files && GetFileName(src) != ""
      && Destination(src, targetPath, date, mode) !in disk.files
      && !DirectoryExists(disk, Destination(src, targetPath, date, mode))
      && DirectoryExists(disk, BucketPath(targetPath, date, mode))
  {
    var created := PrepareTarget(disk, targetPath);
    if created.error.None? && GetFileName(src) != "" {
      DestinationParts(src, targetPath, date, mode);
      OtherDirectoryUnaffected(disk, created.disk, DirectoryKey(targetPath), BucketPath(targetPath, date, mode));
      OtherDirectoryUnaffected(disk, created.disk, DirectoryKey(targetPath), Destination(src, targetPath, date, mode));
    }
  }

  /** Adding the target directory leaves whether any other directory exists
      as it was. */
  lemma {:induction false} OtherDirectoryUnaffected(disk: Disk, created: Disk, added: string, dir: string)
    requires disk.directories <= created.directories <= disk.directories + {added}
    requires DirectoryKey(dir) != added
    ensures DirectoryExists(created, dir) <==> DirectoryExists(disk, dir)
  {
  }

  /** A directory already at the destination makes OrganizeHelper raise,
      and no file moves. */
  lemma {:induction false} HelperOntoDirectoryFails(disk: Disk, src: string, targetPath: string, date: DateTime, mode: FileOrganizerMode)
    requires DirectoryExists(disk, Destination(src, targetPath, date, mode))
    ensures HelperEffect(disk, src, targetPath, date, mode).error.Some?
    ensures HelperEffect(disk, src, targetPath, date, mode).disk.files == disk.files
  {
    HelperSucceedsIff(disk, src, targetPath, date, mode);
  }

  /** A successful move changes no path but its source and destination. */
  lemma {:induction false} MoveFrame(disk: Disk, src: string, dst: string)
    requires MoveEffect(disk, src, dst).error.None?
    ensures var files := MoveEffect(disk, src, dst).disk.files;
            && (forall p :: p != src && p != dst ==> (p in files <==> p in disk.files))
            && (forall p :: p != src && p != dst && p in files ==> files[p] == disk.files[p])
  {
  }

  /** Taking one key out of a map and adding a fresh one keeps its size. */
  lemma {:induction false} RenameKeepsSize(m: map<string, DateTime>, src: string, dst: string)
    requires src in m && dst !in m
    ensures |(m - {src})[dst := m[src]]| == |m|
  {
    var n := (m - {src})[dst := m[src]];
    assert (m - {src}).Keys == m.Keys - {src};
    assert n.Keys == (m.Keys - {src}) + {dst};
    assert |m.Keys - {src}| == |m.Keys| - 1;
  }

  /** A move never loses or duplicates a file. */
  lemma {:induction false} MoveKeepsFileCount(disk: Disk, src: string, dst: string)
    ensures |MoveEffect(disk, src, dst).disk.files| == |disk.files|
  {
    if src in disk.files && dst !in disk.files {
      RenameKeepsSize(disk.files, src, dst);
    }
  }

  /** When OrganizeHelper succeeds, the file has moved to the destination
      with its creation time, and no other path has changed. */
  lemma {:induction false} HelperMovesOneFile(disk: Disk, src: string, targetPath: string, date: DateTime, mode: FileOrganizerMode)
    requires HelperEffect(disk, src, targetPath, date, mode).error.None?
    ensures var files := HelperEffect(disk, src, targetPath, date, mode).disk.files;
            var dst := Destination(src, targetPath, date, mode);
            && src in disk.files && src !in files
            && dst in files && files[dst] == disk.files[src]
            && (forall p :: p != src && p != dst ==> (p in files <==> p in disk.files))
            && (forall p :: p != src && p != dst && p in files ==> files[p] == disk.files[p])
  {
    var created := PrepareTarget(disk, targetPath);
    MoveFrame(created.disk, src, Destination(src, targetPath, date, mode));
  }

  /** OrganizeHelper never loses or duplicates a file: the number of files
      stays the same, whatever it does. */
  lemma {:induction false} HelperKeepsFileCount(disk: Disk, src: string, targetPath: string, date: DateTime, mode: FileOrganizerMode)
    ensures |HelperEffect(disk, src, targetPath, date, mode).disk.files| == |disk.files|
  {
    var created := PrepareTarget(disk, targetPath);
    MoveKeepsFileCount(created.disk, src, Destination(src, targetPath, date, mode));
  }

  // ---------------------------------------------------------------------
  // Organize

  /** Organize(filename, targetPath, mode): File.GetCreationTime raises
      ArgumentException for an empty name before anything changes; any other
      name is organized by its creation time. It adds no directory but the
      target path, and when it fails no file has moved. */
  function OrganizeEffect(disk: Disk, fileName: string, targetPath: string, mode: FileOrganizerMode): (r: Step)
    ensures fileName == "" ==> r == Step(disk, Some(ArgumentError))
    ensures r.disk.directories <= disk.directories + {DirectoryKey(targetPath)}
    ensures r.error.Some? ==> r.disk.files == disk.files
  {
    if fileName == "" then Step(disk, Some(ArgumentError))
    else HelperEffect(disk, fileName, targetPath, CreationTime(disk, fileName), mode)
  }

  /** Organize never loses or duplicates a file. */
  lemma {:induction false} OrganizeKeepsFileCount(disk: Disk, fileName: string, targetPath: string, mode: FileOrganizerMode)
    ensures |OrganizeEffect(disk, fileName, targetPath, mode).disk.files| == |disk.files|
  {
    if fileName != "" {
      HelperKeepsFileCount(disk, fileName, targetPath, CreationTime(disk, fileName), mode);
    }
  }

  method Organize(fs: FileSystem, fileName: string, targetPath: string, mode: FileOrganizerMode)
    returns (err: Option<Error>)
    modifies fs
    ensures Step(fs.Contents(), err) == OrganizeEffect(old(fs.Contents()), fileName, targetPath, mode)
  {
    var time := fs.GetCreationTime(fileName);
    match time {
      case Failure(e) =>
        err := Some(e);
      case Success(date) =>
        err := OrganizeHelper(fs, fileName, targetPath, date, mode);
    }
  }

  /** Organize(stampedFileName, targetPath, mode): ArgumentNullException for
      null; otherwise move the file ToString() names, bucketed by the stamp
      value. */
  method OrganizeStamped(fs: FileSystem, stamped: StampedFileNameBase?<DateTime>, targetPath: string, mode: FileOrganizerMode)
    returns (err: Option<Error>)
    requires stamped != null ==> stamped.Valid()
    modifies fs
    ensures stamped == null ==> err == Some(ArgumentNull) && fs.Contents() == old(fs.Contents())
    ensures stamped != null ==>
      Step(fs.Contents(), err) ==
      HelperEffect(old(fs.Contents()), Format(stamped.State(), stamped.formatStampValue), targetPath, stamped.stampValue, mode)
  {
    if stamped == null {
      return Some(ArgumentNull);
    }
    var name := stamped.ToString();
    err := OrganizeHelper(fs, name, targetPath, stamped.stampValue, mode);
  }

  // ---------------------------------------------------------------------
  // The bulk variants

  /** FileInfo, as the condition of OrganizeAllWhen sees it. */
  datatype FileInfo = FileInfo(fullName: string, creationTime: DateTime)

  /** What a bulk variant does with each listed file. */
  datatype Task =
    | ByCreationTime                                  // OrganizeAll
    | ByCreationTimeWhen(condition: FileInfo -> bool) // OrganizeAllWhen
    | ByStamp(parse: string -> Result<Fields<DateTime>, Error>,
              formatStampValue: (DateTime, char) -> string)
        // OrganizeAllDateStampedFile, OrganizeAllDateTimeStampedFile

  /** A stamped variant's parser returns only objects the constructor
      accepts. */
  ghost predicate TaskOk(task: Task) {
    task.ByStamp? ==> forall file :: task.parse(file).Success? ==> ValidFields(task.parse(file).value)
  }

  /** DateStampedFileName.Parse(file, separator), as OrganizeAllDateStampedFile
      calls it. */
  function DateParser(separator: char): string -> Result<Fields<DateTime>, Error>
    requires ValidSeparator(separator)
  {
    file => DateStamped.Parse(file, separator)
  }

  /** DateTimeStampedFileName.Parse(file, separator), as
      OrganizeAllDateTimeStampedFile calls it. */
  function DateTimeParser(separator: char): string -> Result<Fields<DateTime>, Error>
    requires ValidSeparator(separator) && IsFormatLiteral(separator)
  {
    file => DateTimeStamped.Parse(file, separator)
  }

  /** What OrganizeAllDateStampedFile does with each listed file. */
  function ByDateStamp(separator: char): (task: Task)
    requires ValidSeparator(separator)
    ensures TaskOk(task)
  {
    ByStamp(DateParser(separator), DateStamped.DateStamp)
  }

  /** What OrganizeAllDateTimeStampedFile does with each listed file. */
  function ByDateTimeStamp(separator: char): (task: Task)
    requires ValidSeparator(separator) && IsFormatLiteral(separator)
    ensures TaskOk(task)
  {
    ByStamp(DateTimeParser(separator), DateTimeStamped.StampValue)
  }

  /** One file of a bulk variant: Organize by its creation time, or, for the
      stamped variants, Parse its path, whose exceptions stop the run, and
      Organize the parsed object. */
  function TaskStep(task: Task, targetPath: string, mode: FileOrganizerMode, disk: Disk, file: string): Step
    requires TaskOk(task)
  {
    match task
    case ByCreationTime => OrganizeEffect(disk, file, targetPath, mode)
    case ByCreationTimeWhen(condition) =>
      if file == "" then Step(disk, Some(ArgumentError))
      else if condition(FileInfo(file, CreationTime(disk, file))) then OrganizeEffect(disk, file, targetPath, mode)
      else Step(disk, None)
    case ByStamp(parse, formatStampValue) =>
      StampedStep(disk, parse(file), formatStampValue, targetPath, mode)
  }

  /** A stamped variant's step after Parse: its exception stops the run;
      otherwise the file ToString() names moves into the bucket of the stamp
      value. */
  function StampedStep(disk: Disk, parsed: Result<Fields<DateTime>, Error>, formatStampValue: (DateTime, char) -> string,
                       targetPath: string, mode: FileOrganizerMode): Step
    requires parsed.Success? ==> ValidFields(parsed.value)
  {
    match parsed
    case Failure(e) => Step(disk, Some(e))
    case Success(f) => HelperEffect(disk, Format(f, formatStampValue), targetPath, f.stampValue, mode)
  }

  /** TaskStep as a function of the disk and the listed file. */
  function StepFor(task: Task, targetPath: string, mode: FileOrganizerMode): (Disk, string) -> Step
    requires TaskOk(task)
  {
    (disk, file) => TaskStep(task, targetPath, mode, disk, file)
  }

  lemma {:induction false} StepForIs(task: Task, targetPath: string, mode: FileOrganizerMode, disk: Disk, file: string)
    requires TaskOk(task)
    ensures StepFor(task, targetPath, mode)(disk, file) == TaskStep(task, targetPath, mode, disk, file)
  {
  }

  /** The foreach loop: each listed file in turn, until the first exception,
      which leaves the earlier moves in place. An exception comes from some
      listed file, so a loop whose every step succeeds succeeds. */
  function Run(step: (Disk, string) -> Step, disk: Disk, listing: seq<string>): (r: Step)
    ensures r.error.Some? ==> listing != []
    ensures (forall d, f :: step(d, f).error.None?) ==> r.error.None?
    decreases |listing|
  {
    if listing == [] then Step(disk, None)
    else
      var s := step(disk, listing[0]);
      if s.error.Some? then s else Run(step, s.disk, listing[1..])
  }

  /** Running two listings one after the other is running the first, then,
      unless it raised, the second from where the first left the disk. */
  lemma {:induction false} RunAppend(step: (Disk, string) -> Step, disk: Disk, a: seq<string>, b: seq<string>)
    ensures Run(step, disk, a + b) ==
      (var s := Run(step, disk, a);
       if s.error.Some? then s else Run(step, s.disk, b))
    decreases |a|
  {
    if a == [] {
      assert a + b == b;
    } else {
      var s := step(disk, a[0]);
      assert (a + b)[0] == a[0] && (a + b)[1..] == a[1..] + b;
      if s.error.None? {
        RunAppend(step, s.disk, a[1..], b);
      }
    }
  }

  /** A run over one more file is the run so far, then, unless it raised,
      one step for that file. */
  lemma {:induction false} RunNext(step: (Disk, string) -> Step, disk: Disk, listing: seq<string>, i: nat)
    requires i < |listing| && Run(step, disk, listing[..i]).error.None?
    ensures Run(step, disk, listing[..i + 1]) == step(Run(step, disk, listing[..i]).disk, listing[i])
  {
    RunAppend(step, disk, listing[..i], [listing[i]]);
    assert listing[..i + 1] == listing[..i] + [listing[i]];
  }

  /** Once a run has raised, the files after it are never reached. */
  lemma {:induction false} RunStops(step: (Disk, string) -> Step, disk: Disk, a: seq<string>, b: seq<string>)
    requires Run(step, disk, a).error.Some?
    ensures Run(step, disk, a + b) == Run(step, disk, a)
  {
    RunAppend(step, disk, a, b);
  }

  /** A run whose every step keeps the number of files keeps it too. */
  lemma {:induction false} RunKeepsFileCount(step: (Disk, string) -> Step, disk: Disk, listing: seq<string>)
    requires forall d, f :: |step(d, f).disk.files| == |d.files|
    ensures |Run(step, disk, listing).disk.files| == |disk.files|
    decreases |listing|
  {
    if listing != [] {
      var s := step(disk, listing[0]);
      if s.error.None? {
        RunKeepsFileCount(step, s.disk, listing[1..]);
      }
    }
  }

  /** A bulk variant never loses or duplicates a file. */
  lemma {:induction false} BulkKeepsFileCount(task: Task, targetPath: string, mode: FileOrganizerMode, disk: Disk, listing: seq<string>)
    requires TaskOk(task)
    ensures |Run(StepFor(task, targetPath, mode), disk, listing).disk.files| == |disk.files|
  {
    var step := StepFor(task, targetPath, mode);
    forall d, f ensures |step(d, f).disk.files| == |d.files| {
      TaskStepKeepsFileCount(task, targetPath, mode, d, f);
    }
    RunKeepsFileCount(step, disk, listing);
  }

  lemma {:induction false} TaskStepKeepsFileCount(task: Task, targetPath: string, mode: FileOrganizerMode, disk: Disk, file: string)
    requires TaskOk(task)
    ensures |TaskStep(task, targetPath, mode, disk, file).disk.files| == |disk.files|
  {
    match task {
      case ByCreationTime =>
        OrganizeKeepsFileCount(disk, file, targetPath, mode);
      case ByCreationTimeWhen(condition) =>
        OrganizeKeepsFileCount(disk, file, targetPath, mode);
      case ByStamp(parse, formatStampValue) =>
        StampedStepKeepsFileCount(disk, parse(file), formatStampValue, targetPath, mode);
    }
  }

  lemma {:induction false} StampedStepKeepsFileCount(disk: Disk, parsed: Result<Fields<DateTime>, Error>,
                                                     formatStampValue: (DateTime, char) -> string,
                                                     targetPath: string, mode: FileOrganizerMode)
    requires parsed.Success? ==> ValidFields(parsed.value)
    ensures |StampedStep(disk, parsed, formatStampValue, targetPath, mode).disk.files| == |disk.files|
  {
    if parsed.Success? {
      var f := parsed.value;
      HelperKeepsFileCount(disk, Format(f, formatStampValue), targetPath, f.stampValue, mode);
    }
  }

  /** OrganizeAllWhen leaves a file the condition rejects where it is; an
      empty name raises the ArgumentException of new FileInfo. */
  lemma {:induction false} WhenSkipsRejected(condition: FileInfo -> bool, targetPath: string, mode: FileOrganizerMode, disk: Disk, file: string)
    requires !condition(FileInfo(file, CreationTime(disk, file)))
    ensures TaskStep(ByCreationTimeWhen(condition), targetPath, mode, disk, file) ==
            Step(disk, if file == "" then Some(ArgumentError) else None)
  {
  }

  /** OrganizeAllWhen organizes a file the condition accepts as Organize
      would. */
  lemma {:induction false} WhenOrganizesAccepted(condition: FileInfo -> bool, targetPath: string, mode: FileOrganizerMode, disk: Disk, file: string)
    requires condition(FileInfo(file, CreationTime(disk, file)))
    ensures TaskStep(ByCreationTimeWhen(condition), targetPath, mode, disk, file) ==
            TaskStep(ByCreationTime, targetPath, mode, disk, file)
  {
  }

  /** A run whose every step changes nothing changes nothing, and raises
      nothing when no listed file makes a step raise. */
  lemma {:induction false} RunOfIdleSteps(step: (Disk, string) -> Step, disk: Disk, listing: seq<string>)
    requires forall d, f :: step(d, f).disk == d
    ensures Run(step, disk, listing).disk == disk
    ensures (forall d, f :: f in listing ==> step(d, f).error.None?) ==> Run(step, disk, listing).error.None?
    decreases |listing|
  {
    if listing != [] {
      RunOfIdleSteps(step, disk, listing[1..]);
      assert forall f :: f in listing[1..] ==> f in listing;
    }
  }

  /** OrganizeAllWhen with a condition no file meets changes nothing, and
      raises nothing over a listing without an empty path. */
  lemma {:induction false} WhenNothingMatches(condition: FileInfo -> bool, targetPath: string, mode: FileOrganizerMode, disk: Disk, listing: seq<string>)
    requires forall info :: !condition(info)
    ensures Run(StepFor(ByCreationTimeWhen(condition), targetPath, mode), disk, listing).disk == disk
    ensures "" !in listing ==> Run(StepFor(ByCreationTimeWhen(condition), targetPath, mode), disk, listing).error.None?
  {
    var step := StepFor(ByCreationTimeWhen(condition), targetPath, mode);
    forall d, f ensures step(d, f) == Step(d, if f == "" then Some(ArgumentError) else None) {
      WhenSkipsRejected(condition, targetPath, mode, d, f);
    }
    RunOfIdleSteps(step, disk, listing);
  }

  /** Directory.GetFiles never lists the empty path. */
  lemma {:induction false} ListingHasNoEmptyPath(disk: Disk, sourcePath: string, wildcard: string -> bool, listing: seq<string>)
    requires sourcePath != "" && IsListing(disk, sourcePath, wildcard, listing)
    ensures "" !in listing
  {
    assert GetDirectoryName("") == "";
  }

  /** The body of the foreach loop, for one listed file. */
  method OrganizeOne(fs: FileSystem, task: Task, targetPath: string, mode: FileOrganizerMode, file: string)
    returns (err: Option<Error>)
    requires TaskOk(task)
    modifies fs
    ensures Step(fs.Contents(), err) == TaskStep(task, targetPath, mode, old(fs.Contents()), file)
  {
    match task {
      case ByCreationTime =>
        err := Organize(fs, file, targetPath, mode);
      case ByCreationTimeWhen(condition) =>
        err := OrganizeWhen(fs, condition, targetPath, mode, file);
      case ByStamp(parse, formatStampValue) =>
        var parsed := parse(file);
        err := OrganizeParsed(fs, parsed, formatStampValue, targetPath, mode);
    }
  }

  /** The body of OrganizeAllWhen's loop: new FileInfo raises
      ArgumentException for an empty name; otherwise Organize the file when
      its FileInfo meets the condition. */
  method OrganizeWhen(fs: FileSystem, condition: FileInfo -> bool, targetPath: string, mode: FileOrganizerMode, file: string)
    returns (err: Option<Error>)
    modifies fs
    ensures Step(fs.Contents(), err) == TaskStep(ByCreationTimeWhen(condition), targetPath, mode, old(fs.Contents()), file)
  {
    var time := fs.GetCreationTime(file);
    match time {
      case Failure(e) =>
        err := Some(e);
      case Success(t) =>
        if condition(FileInfo(file, t)) {
          err := Organize(fs, file, targetPath, mode);
        } else {
          err := None;
        }
    }
  }

  /** Raise Parse's exception, or build the stamped object Parse returns and
      Organize it. */
  method OrganizeParsed(fs: FileSystem, parsed: Result<Fields<DateTime>, Error>, formatStampValue: (DateTime, char) -> string,
                        targetPath: string, mode: FileOrganizerMode)
    returns (err: Option<Error>)
    requires parsed.Success? ==> ValidFields(parsed.value)
    modifies fs
    ensures Step(fs.Contents(), err) == StampedStep(old(fs.Contents()), parsed, formatStampValue, targetPath, mode)
  {
    match parsed {
      case Failure(e) =>
        err := Some(e);
      case Success(f) =>
        var o := new StampedFileNameBase(f.fileName, f.stampValue, f.separator, f.stampAsExtension, f.counter, formatStampValue);
        err := OrganizeStamped(fs, o, targetPath, mode);
    }
  }

  /** The loop shared by the bulk variants, over a listing. */
  method RunListing(fs: FileSystem, task: Task, targetPath: string, mode: FileOrganizerMode, listing: seq<string>)
    returns (err: Option<Error>)
    requires TaskOk(task)
    modifies fs
    ensures Step(fs.Contents(), err) == Run(StepFor(task, targetPath, mode), old(fs.Contents()), listing)
  {
    ghost var disk0 := fs.Contents();
    err := None;
    var i := 0;
    while i < |listing| && err.None?
      invariant 0 <= i <= |listing|
      invariant Step(fs.Contents(), err) == Run(StepFor(task, targetPath, mode), disk0, listing[..i])
    {
      ghost var before := fs.Contents();
      err := OrganizeOne(fs, task, targetPath, mode, listing[i]);
      RunListingNext(task, targetPath, mode, disk0, listing, i, before, Step(fs.Contents(), err));
      i := i + 1;
    }
    RunListingDone(StepFor(task, targetPath, mode), disk0, listing, i, Step(fs.Contents(), err));
  }

  /** One turn of the foreach loop extends the run by the next listed file. */
  lemma {:induction false} RunListingNext(task: Task, targetPath: string, mode: FileOrganizerMode, disk: Disk,
                                          listing: seq<string>, i: nat, before: Disk, after: Step)
    requires TaskOk(task) && i < |listing|
    requires Run(StepFor(task, targetPath, mode), disk, listing[..i]) == Step(before, None)
    requires after == TaskStep(task, targetPath, mode, before, listing[i])
    ensures after == Run(StepFor(task, targetPath, mode), disk, listing[..i + 1])
  {
    StepForIs(task, targetPath, mode, before, listing[i]);
    RunNext(StepFor(task, targetPath, mode), disk, listing, i);
  }

  /** The foreach loop ends with the whole listing run, whether it reached
      the end or stopped at an exception. */
  lemma {:induction false} RunListingDone(step: (Disk, string) -> Step, disk: Disk, listing: seq<string>, i: nat, s: Step)
    requires i <= |listing| && s == Run(step, disk, listing[..i])
    requires i < |listing| ==> s.error.Some?
    ensures s == Run(step, disk, listing)
  {
    if i < |listing| {
      RunStops(step, disk, listing[..i], listing[i..]);
      assert listing[..i] + listing[i..] == listing;
    } else {
      assert listing[..i] == listing;
    }
  }

  /** OrganizeAll(sourcePath, targetPath, wildcard, mode). */
  method OrganizeAll(fs: FileSystem, sourcePath: string, targetPath: string, wildcard: string -> bool, mode: FileOrganizerMode)
    returns (err: Option<Error>, ghost listing: seq<string>)
    modifies fs
    ensures !DirectoryExists(old(fs.Contents()), sourcePath) ==>
      && err == Some(if sourcePath == "" then ArgumentError else DirectoryNotFound)
      && fs.Contents() == old(fs.Contents())
    ensures DirectoryExists(old(fs.Contents()), sourcePath) ==>
      && IsListing(old(fs.Contents()), sourcePath, wildcard, listing)
      && Step(fs.Contents(), err) == Run(StepFor(ByCreationTime, targetPath, mode), old(fs.Contents()), listing)
  {
    err, listing := OrganizeListed(fs, sourcePath, targetPath, wildcard, mode, ByCreationTime);
  }

  /** OrganizeAllWhen(sourcePath, targetPath, condition, wildcard, mode). */
  method OrganizeAllWhen(fs: FileSystem, sourcePath: string, targetPath: string, condition: FileInfo -> bool,
                         wildcard: string -> bool, mode: FileOrganizerMode)
    returns (err: Option<Error>, ghost listing: seq<string>)
    modifies fs
    ensures !DirectoryExists(old(fs.Contents()), sourcePath) ==>
      && err == Some(if sourcePath == "" then ArgumentError else DirectoryNotFound)
      && fs.Contents() == old(fs.Contents())
    ensures DirectoryExists(old(fs.Contents()), sourcePath) ==>
      && IsListing(old(fs.Contents()), sourcePath, wildcard, listing)
      && Step(fs.Contents(), err) == Run(StepFor(ByCreationTimeWhen(condition), targetPath, mode), old(fs.Contents()), listing)
  {
    err, listing := OrganizeListed(fs, sourcePath, targetPath, wildcard, mode, ByCreationTimeWhen(condition));
  }

  /** OrganizeAllDateStampedFile(sourcePath, targetPath, wildcard, separator,
      mode). */
  method OrganizeAllDateStampedFile(fs: FileSystem, sourcePath: string, targetPath: string, wildcard: string -> bool,
                                    separator: char, mode: FileOrganizerMode)
    returns (err: Option<Error>, ghost listing: seq<string>)
    requires ValidSeparator(separator)
    modifies fs
    ensures !DirectoryExists(old(fs.Contents()), sourcePath) ==>
      && err == Some(if sourcePath == "" then ArgumentError else DirectoryNotFound)
      && fs.Contents() == old(fs.Contents())
    ensures DirectoryExists(old(fs.Contents()), sourcePath) ==>
      && IsListing(old(fs.Contents()), sourcePath, wildcard, listing)
      && Step(fs.Contents(), err) == Run(StepFor(ByDateStamp(separator), targetPath, mode), old(fs.Contents()), listing)
  {
    err, listing := OrganizeListed(fs, sourcePath, targetPath, wildcard, mode, ByDateStamp(separator));
  }

  /** OrganizeAllDateTimeStampedFile(sourcePath, targetPath, wildcard,
      separator, mode). */
  method OrganizeAllDateTimeStampedFile(fs: FileSystem, sourcePath: string, targetPath: string, wildcard: string -> bool,
                                        separator: char, mode: FileOrganizerMode)
    returns (err: Option<Error>, ghost listing: seq<string>)
    requires ValidSeparator(separator) && IsFormatLiteral(separator)
    modifies fs
    ensures !DirectoryExists(old(fs.Contents()), sourcePath) ==>
      && err == Some(if sourcePath == "" then ArgumentError else DirectoryNotFound)
      && fs.Contents() == old(fs.Contents())
    ensures DirectoryExists(old(fs.Contents()), sourcePath) ==>
      && IsListing(old(fs.Contents()), sourcePath, wildcard, listing)
      && Step(fs.Contents(), err) == Run(StepFor(ByDateTimeStamp(separator), targetPath, mode), old(fs.Contents()), listing)
  {
    err, listing := OrganizeListed(fs, sourcePath, targetPath, wildcard, mode, ByDateTimeStamp(separator));
  }

  /** Directory.GetFiles, then the foreach loop over what it listed. */
  method OrganizeListed(fs: FileSystem, sourcePath: string, targetPath: string, wildcard: string -> bool,
                        mode: FileOrganizerMode, task: Task)
    returns (err: Option<Error>, ghost listing: seq<string>)
    requires TaskOk(task)
    modifies fs
    ensures !DirectoryExists(old(fs.Contents()), sourcePath) ==>
      && err == Some(if sourcePath == "" then ArgumentError else DirectoryNotFound)
      && fs.Contents() == old(fs.Contents())
    ensures DirectoryExists(old(fs.Contents()), sourcePath) ==>
      && IsListing(old(fs.Contents()), sourcePath, wildcard, listing)
      && Step(fs.Contents(), err) == Run(StepFor(task, targetPath, mode), old(fs.Contents()), listing)
  {
    var r := fs.GetFiles(sourcePath, wildcard);
    match r {
      case Failure(e) =>
        err, listing := Some(e), [];
      case Success(files) =>
        listing := files;
        err := RunListing(fs, task, targetPath, mode, files);
    }
  }
}
