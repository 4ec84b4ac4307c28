# Stamped file names, the file organizer and the ID generator of Mendz.Library

This project models, in Dafny, three parts of the Mendz.Library C# library:

- **The stamped-file-name codec** (`Mendz.Library.Conventions`).
  - `StampedFileNameBase<T>` writes a file name with a stamp and optional counter. In suffix mode it writes `name_stamp[_n].ext`; in extension mode it writes `name.ext.stamp[_n]`.
  - Its static `ParseHelper` finds such a stamp with regular expressions and splits it.
  - Three subclasses fix the stamp:
    - `DateStampedFileName` (`yyyyMMdd`);
    - `DateTimeStampedFileName` (`yyyyMMdd_HHmmss`);
    - `StampedFileName` (a caller's string, read back with a caller's pattern).
- **`FileOrganizer`.** It moves files into a bucket directory under a target path, named after a date (`yyyyMMdd`, `yyyyMM` or the year). The date is either a file's creation time or the value of a date stamp in its name. `FileOrganizerMode` becomes a datatype.
- **`IDGenerator`.** It is a raise-only, increment-and-return counter.

Modules, one file each:

| module | file | models |
|---|---|---|
| `Outcomes` | outcomes.dfy | `Option`, `Result` and one `Error` constructor per .NET exception thrown |
| `Text` | text.dfy | Int32 range and wrap-around, `int.ToString()`, zero-padded digits, `Convert.ToInt32`, `LastIndexOf`, `string.Split` |
| `Calendar` | calendar.dfy | `DateTime` as a record, `ToString("yyyyMMdd")`/`("HHmmss")`/`("yyyyMM")`, `ParseExact` on those formats |
| `Paths` | paths.dfy | `Path.GetFileName`, `Path.GetDirectoryName`, `Path.Combine` with `/` as the directory separator |
| `StampRegex` | stamp_regex.dfy | the stamp patterns as languages, and the three regular-expression searches `ParseHelper` makes |
| `StampedBase` | stamped_file_name_base.dfy | `StampedFileNameBase<T>`: the class with its setters, `ToString`, `ToStringWithRetry`, `Deconstruct` and `ParseHelper` |
| `DateStamped` | date_stamped_file_name.dfy | `DateStampedFileName` |
| `DateTimeStamped` | date_time_stamped_file_name.dfy | `DateTimeStampedFileName` |
| `StringStamped` | stamped_file_name.dfy | `StampedFileName` |
| `Organizer` | file_organizer.dfy | `FileOrganizer`, `FileOrganizerMode`, and the file system it drives |
| `Identifiers` | id_generator.dfy | `IDGenerator` |

**How the model is shaped.**

- **Objects are classes.** The objects whose fields the source updates in place are Dafny classes:
  - `StampedFileNameBase<T>`, whose virtual `FormatStampValue` is a constant function field set by each subclass's constructor;
  - `IDGenerator`;
  - a `FileSystem` holding a map from file paths to creation times and a set of directories.
- **Pure code is functions.** `ToString` and `ParseHelper` build strings without touching state. So the stamped name is the function `Format` of the object's field values (`Fields`), and the `ToString` method is proved to return it.
- **Parse returns a record.** Each subclass's static `Parse` returns `Result<Fields<...>, Error>`, and the class's constructor builds the object from it.
- **Effects are functions over a `Disk`.** Each file-system call is a method proved against a function of type `Disk -> Step`. `Step` is the new disk plus the exception raised, if any. `OrganizeHelper` and the bulk `foreach` loops are proved against compositions of those functions.

**Regular expressions.**

- **The patterns.** Each stamp pattern `P` is `core(S[0-9]+)?`, where `S` is the separator and `core` is one of:
  - `\d{8}`;
  - `\d{8}S\d{6}`;
  - the caller's pattern, given as the set of strings it matches as a whole.
- **The searches.**
  - `IsMatch` asks whether some substring is in `P`.
  - `\.P$` finds the leftmost `.` whose whole suffix is in `P`.
  - The right-to-left search for `SP` finds the match that ends furthest right and, among those, the longest. This is what the .NET engine returns for the two built-in patterns.
  - `Regex.Replace` in right-to-left mode removes every such match, each time continuing to the left of the match it removed.

**The main results.**

- Parse inverts ToString:
  - for a date stamp, up to the time of day, which `yyyyMMdd` drops;
  - for a date-time stamp, up to the fraction of a second, which `HHmmss` drops;
  - for a string stamp, exactly.
- The conditions are these:
  - the separator is not `/`;
  - the name is its directory and file name combined again (`Paths.Recombines`): no doubled `/` and no final `/`;
  - in suffix mode, the name is suffix-readable (`StampedBase.SuffixReadable`): its stem and extension hold no text that is the separator followed by a stamp match, its extension is not itself a stamp, and its last `.` lies in the file name. The name may hold the separator; with a caller's pattern, only when the pattern cuts every separator-led match running into the stem at the stamp (`StampRegex.StampSplits`), as both built-in patterns do;
  - for a string stamp, the caller's pattern matches the value, the value does not hold the separator, and no match of the pattern holds `.` or `/`.
- When a suffix-mode name already holds the separator followed by a stamp match, Parse removes that text as well as the stamp, so it does not give the name back (`DateStamped.StemDateIsLostExample`, `DateStamped.ParseDropsEveryDate`).
- Parse raises exactly the documented exceptions, and the model shows inputs that raise each one.
- The names `ToStringWithRetry` tries are pairwise distinct, and the one it returns is free.
- The organizer moves one file per step and never loses or duplicates a file. The only directory it creates is the target path.
- The IDs a generator hands out are strictly increasing until the Int32 counter wraps.

Where a requirement described in prose and the code disagree, the model follows the code:

- **Only the target path is created.** `OrganizeHelper` creates the target path only, never the bucket directory under it (`Mendz.Library/Conventions/FileOrganizer.cs:120-121`). A move into a bucket that does not exist yet raises `DirectoryNotFoundException` (`Organizer.HelperSucceedsIff`).
- **Every separator is accepted.** The separator setter's emptiness check can never fire, since a `char` always stringifies to one character (`SetSeparator` accepts every character).
- **The dot search covers the whole path.** In suffix mode, `ToString` looks for the last `.` in the whole path, directory included (`Mendz.Library/Conventions/StampedFileNameBase.cs:128`). A dot in a directory name therefore puts the stamp before the file name, and Parse cannot read it back (`StampedBase.DotInDirectoryIsUnreadable`).
- **Bulk stamped variants move the re-formatted name.** `OrganizeAllDateStampedFile` and `OrganizeAllDateTimeStampedFile` move the file that the parsed object's `ToString()` names, not the listed file. The two differ when:
  - the listed name's counter is written `_0` or with leading zeros;
  - its name holds a second stamp match, which Parse removes too;
  - its file name is only a stamp in extension mode, which Parse reads back as the directory itself (`DateStamped.StampOnlyFileName`).

## Model

| member | source | states |
|---|---|---|
| Text.WrapInt32 | Mendz.Library/Conventions/StampedFileNameBase.cs:97 | Int32 `++` arithmetic: the result is an Int32 congruent to the input modulo 2^32, and is the input itself when that is already an Int32 |
| Text.IsWhiteSpace | Mendz.Library/Conventions/StampedFileNameBase.cs:28 | `char.IsWhiteSpace`: a white-space character is never a digit, `.`, `/` or `_` |
| Text.IsBlank | Mendz.Library/Conventions/StampedFileNameBase.cs:28 | `IsNullOrEmpty || IsNullOrWhiteSpace`: the empty name is blank, and a blank name holds no digit, `.` or `/` |
| Text.NatToString | Mendz.Library/Conventions/StampedFileNameBase.cs:119 | `Counter.ToString()`: decimal digits, no leading zero except for 0 itself, whose value is the number |
| Text.ZeroPadded | Mendz.Library/Conventions/DateStampedFileName.cs:17 | the `yyyy`, `MM`, `dd`, `HH`, `mm`, `ss` fields: exactly `width` digits whose value is the number |
| Text.ToInt32 | Mendz.Library/Conventions/DateStampedFileName.cs:84 | `Convert.ToInt32`: a digit string gives its value, or `OverflowException` above int.MaxValue; text with no digit gives `FormatException`; no other outcome |
| Text.ToInt32OfNatToString | Mendz.Library/Conventions/DateStampedFileName.cs:84 | `Convert.ToInt32` reads back every counter that `Counter.ToString()` wrote |
| Text.LastIndexOf | Mendz.Library/Conventions/StampedFileNameBase.cs:128 | `LastIndexOf`: -1 exactly when the character is absent, otherwise an occurrence with none after it |
| Text.Split | Mendz.Library/Conventions/StampedFileNameBase.cs:190 | `string.Split(separator)`: at least one piece, none holding the separator, and joining them with the separator gives the string back |
| Text.SplitJoin | Mendz.Library/Conventions/StampedFileNameBase.cs:190 | splitting separator-free pieces joined with the separator gives the same pieces back |
| Calendar.ParseYearMonthDay | Mendz.Library/Conventions/DateStampedFileName.cs:81 | `ParseExact(s, "yyyyMMdd")` succeeds exactly when `s` is 8 digits naming a calendar date, and gives that date at midnight; otherwise `FormatException` |
| Calendar.ParseYearMonthDayTime | Mendz.Library/Conventions/DateTimeStampedFileName.cs:90-92 | `ParseExact(s, "yyyyMMdd" + separator + "HHmmss")` succeeds exactly when `s` is 8 digits, the separator and 6 digits naming a valid date and time, and gives that moment; otherwise `FormatException` |
| Calendar.ParseFormatYearMonthDay | Mendz.Library/Conventions/DateStampedFileName.cs:22 | parsing the `yyyyMMdd` text of a date gives back the date without its time of day |
| Calendar.ParseFormatYearMonthDayTime | Mendz.Library/Conventions/DateTimeStampedFileName.cs:58 | parsing the `yyyyMMdd`+separator+`HHmmss` text gives back the moment truncated to the second |
| Calendar.IsValidDate | Mendz.Library/Conventions/DateStampedFileName.cs:81 | the calendar `ParseExact` accepts: every day 1 to 28 of every month of years 1 to 9999, never a day above 31, and 29 February only in a leap year |
| Calendar.IsValid | Mendz.Library/Conventions/DateTimeStampedFileName.cs:90-92 | a valid moment lies within one day: its time of day is below 86400 seconds |
| Calendar.FormatYearMonthDay | Mendz.Library/Conventions/DateStampedFileName.cs:22 | `ToString("yyyyMMdd")`: 8 digits, whose first 4 read as the year, next 2 as the month and last 2 as the day |
| Calendar.FormatYearMonth | Mendz.Library/Conventions/FileOrganizer.cs:127 | `ToString("yyyyMM")`: 6 digits, the first 6 of `yyyyMMdd`, reading as the year and the month |
| Calendar.FormatHourMinuteSecond | Mendz.Library/Conventions/DateTimeStampedFileName.cs:28 | `ToString("HHmmss")`: 6 digits reading as the hour, the minute and the second |
| Calendar.FormatYear | Mendz.Library/Conventions/FileOrganizer.cs:128 | `date.Year.ToString()`: digits without a leading zero whose value is the year |
| Calendar.RejectsThirteenthMonth | Mendz.Library/Conventions/DateStampedFileName.cs:81 | `20201301` is rejected with `FormatException` |
| Calendar.RejectsTwentyNinthFebruary | Mendz.Library/Conventions/DateStampedFileName.cs:81 | 29 February is rejected in 2100 and accepted in 2000 |
| Paths.GetFileName | Mendz.Library/Conventions/StampedFileNameBase.cs:173 | `Path.GetFileName`: a `/`-free suffix of the path, and the whole path when it has no `/` |
| Paths.GetDirectoryName | Mendz.Library/Conventions/DateStampedFileName.cs:86 | `Path.GetDirectoryName` is empty for a path without `/` |
| Paths.Combine | Mendz.Library/Conventions/DateStampedFileName.cs:86 | `Path.Combine`: an empty directory gives the name and an empty name gives the directory; otherwise the result starts with the directory and ends with the name |
| Paths.CombineParts | Mendz.Library/Conventions/FileOrganizer.cs:121 | combining a non-empty directory that does not end in `/` with a non-empty `/`-free name gives back that name and that directory |
| Paths.FileNameAfterDirectory | Mendz.Library/Conventions/FileOrganizer.cs:121 | a `/`-free name under a `/`-free directory splits back into that name and that directory |
| Paths.TrailingSlashDoesNotRecombine | Mendz.Library/Conventions/DateStampedFileName.cs:86 | a path ending in `/` has an empty file name, and recombining its parts drops the final `/`, so it is not read back as itself |
| Paths.InsertIntoFileName | Mendz.Library/Conventions/StampedFileNameBase.cs:137 | inserting `/`-free text after the last `/` changes only the file name, and leaves the directory as it was |
| Paths.AppendToFileName | Mendz.Library/Conventions/StampedFileNameBase.cs:124 | appending `/`-free text extends the file name and keeps the directory |
| StampRegex.MatchExtension | Mendz.Library/Conventions/StampedFileNameBase.cs:175 | `Regex.Match(name, "\.P$")`: -1, or the index of a `.` whose whole suffix matches |
| StampRegex.MatchExtensionIsLeftmost | Mendz.Library/Conventions/StampedFileNameBase.cs:175 | the match found is the leftmost, and -1 means that no `.` is followed by a whole match |
| StampRegex.MatchRightToLeft | Mendz.Library/Conventions/StampedFileNameBase.cs:185 | `Regex.Match(name, S + P, RightToLeft)`: when found, a span of the name that matches `SP` |
| StampRegex.MatchRightToLeftIsLast | Mendz.Library/Conventions/StampedFileNameBase.cs:185 | no match ends further right, and none at the same end starts further left |
| StampRegex.NoMatchIff | Mendz.Library/Conventions/StampedFileNameBase.cs:185-186 | the right-to-left search fails exactly when no span of the name is the separator followed by a match |
| StampRegex.NoSeparatorNoLedMatch | Mendz.Library/Conventions/StampedFileNameBase.cs:185-186 | a name without the separator holds no separator-led match |
| StampRegex.RemoveMatchesRightToLeft | Mendz.Library/Extensions/StringExtensions.cs:27 | `Regex.Replace(name, S + P, "", RightToLeft)`: unchanged exactly when there is no match; otherwise strictly shorter and keeping the text after the rightmost match |
| StampRegex.RemoveAt | Mendz.Library/Extensions/StringExtensions.cs:27 | the replacement removes the rightmost match and then goes on in the text to its left only |
| StampRegex.RemoveNothing | Mendz.Library/Extensions/StringExtensions.cs:27 | a name with no separator-led match is left as it is |
| StampRegex.RemoveSomething | Mendz.Library/Extensions/StringExtensions.cs:27 | a name with any separator-led match, wherever it lies, gets shorter |
| StampedBase.ClampCounter | Mendz.Library/Conventions/StampedFileNameBase.cs:63 | the `Counter` setter stores negatives as 0 and keeps every other value |
| StampedBase.InsertionPoint | Mendz.Library/Conventions/StampedFileNameBase.cs:121-138 | the stamp goes at the end, or, in suffix mode, at a `.` with no `.` after it |
| StampedBase.Stamped | Mendz.Library/Conventions/StampedFileNameBase.cs:121-138 | the stamped name is exactly one character longer than the name plus the stamp |
| StampedBase.StampedLayout | Mendz.Library/Conventions/StampedFileNameBase.cs:119-140 | the stamped name is the name up to the insertion point, then `.` (extension mode) or the separator (suffix mode), then the stamp, then the rest of the name |
| StampedBase.FindStamp | Mendz.Library/Conventions/StampedFileNameBase.cs:175-188 | finding the stamp in a bare name fails only with `InvalidOperationException` |
| StampedBase.ParseHelper | Mendz.Library/Conventions/StampedFileNameBase.cs:169-193 | `ArgumentException` exactly when the pattern occurs nowhere in the path; otherwise `InvalidOperationException` or at least one piece |
| StampedBase.ExtensionFindMeaning | Mendz.Library/Conventions/StampedFileNameBase.cs:175-181 | when `\.P$` matches, the name is the unstamped name, a `.` and the stamp text, and the stamp text matches `P` |
| StampedBase.SuffixFindMeaning | Mendz.Library/Conventions/StampedFileNameBase.cs:185-188 | otherwise the search fails exactly when no `SP` match exists; when one does, the stamp text is the match without its separator |
| StampedBase.ParsedStampMatches | Mendz.Library/Conventions/StampedFileNameBase.cs:190 | the pieces ParseHelper returns, joined again, match the stamp pattern |
| StampedBase.ParsedPiecesFree | Mendz.Library/Conventions/StampedFileNameBase.cs:190 | no piece ParseHelper returns holds the separator |
| StampedBase.NoSeparatorNoMatch | Mendz.Library/Conventions/StampedFileNameBase.cs:185-186 | a name without the separator has no right-to-left match |
| StampedBase.ExtensionFind | Mendz.Library/Conventions/StampedFileNameBase.cs:175-181 | a bare name `stem.t` with `t` matching the pattern is found in extension mode with bare name `stem` and stamp text `t` |
| StampedBase.NoExtensionMatch | Mendz.Library/Conventions/StampedFileNameBase.cs:175-176 | a suffix-stamped name whose extension is no stamp has no `\.P$` match |
| StampedBase.RightToLeftMatchIsStamp | Mendz.Library/Conventions/StampedFileNameBase.cs:185-186 | in `stem S t ext` with no separator-led match ending at the end of the stem or lying in the extension, the right-to-left search finds exactly the separator and the stamp text, also when the stem holds the separator, provided the pattern cuts a match running into the stem at the stamp |
| StampedBase.NoMatchAfterStamp | Mendz.Library/Conventions/StampedFileNameBase.cs:185-186 | no separator-led match ends inside an extension that holds none itself |
| StampedBase.LongerMatchIntoStem | Mendz.Library/Conventions/StampedFileNameBase.cs:185-186 | no separator-led match starts inside the stem and runs to the end of the stamp |
| StampedBase.SuffixFind | Mendz.Library/Conventions/StampedFileNameBase.cs:175-188 | a suffix-stamped bare name is found in suffix mode with the stamp text; the name read back is the stem with every separator-led match removed, followed by the extension |
| StampedBase.ExtensionNameParse | Mendz.Library/Conventions/StampedFileNameBase.cs:169-193 | ParseHelper on a path whose file name is `stem.t` gives extension mode, `stem` and the pieces of `t` |
| StampedBase.SuffixNameParse | Mendz.Library/Conventions/StampedFileNameBase.cs:169-193 | ParseHelper on a path whose file name is suffix-stamped gives suffix mode, the stem with every separator-led match removed plus the extension, and the pieces of the stamp |
| StampedBase.StemMatchIsLost | Mendz.Library/Conventions/StampedFileNameBase.cs:187 | when the stem itself holds a separator-led match, ParseHelper still succeeds but reads back a name shorter than the stem and extension: that match is removed too |
| StampedBase.SuffixReadableParts | Mendz.Library/Conventions/StampedFileNameBase.cs:128-137 | a suffix-readable name with a dot is its stem and its extension, the stem readable and the extension free of separator-led matches and no stamp itself |
| StampedBase.SuffixRoundTripNoDot | Mendz.Library/Conventions/StampedFileNameBase.cs:132 | a name without a dot, stamped at its end in suffix mode, parses back to the name, the stamp pieces and the directory, when the name is suffix-readable: no separator-led match in its stem or extension, its extension is no stamp, and a stem holding the separator only when the pattern cuts matches at the stamp; the separator is not `/` |
| StampedBase.SuffixRoundTripAtDot | Mendz.Library/Conventions/StampedFileNameBase.cs:128-137 | a name stamped before its last dot in suffix mode parses back to the name, the stamp pieces and the directory, when the name is suffix-readable: no separator-led match in its stem or extension, its extension is no stamp, and a stem holding the separator only when the pattern cuts matches at the stamp; the separator is not `/` |
| StampedBase.ExtensionRoundTrip | Mendz.Library/Conventions/StampedFileNameBase.cs:124 | ParseHelper on `name.stamp` finds extension mode, the bare name and the stamp's pieces, for every name |
| StampedBase.SuffixRoundTrip | Mendz.Library/Conventions/StampedFileNameBase.cs:128-137 | ParseHelper on a suffix-stamped name finds suffix mode, the bare name, the stamp's pieces and the directory, when the name is suffix-readable: no separator-led match in its stem or extension, its extension is no stamp, and a stem holding the separator only when the pattern cuts matches at the stamp; the separator is not `/` |
| StampedBase.DotInDirectoryIsUnreadable | Mendz.Library/Conventions/StampedFileNameBase.cs:128 | when the last `.` of the path lies in a directory name, the suffix stamp lands outside the file name, and ParseHelper raises `InvalidOperationException` |
| StampedBase.StampTextMatches | Mendz.Library/Conventions/StampedFileNameBase.cs:119 | the stamp text with its optional counter matches the pattern whenever the formatted value matches the core |
| StampedBase.StampTextSplit | Mendz.Library/Conventions/StampedFileNameBase.cs:119 | the stamp text splits into the formatted value and, for a nonzero counter, the counter's digits |
| StampedBase.FormatRoundTrip | Mendz.Library/Conventions/StampedFileNameBase.cs:117-141 | ParseHelper on ToString's output gives back the mode, the bare name, the stamp's pieces and the directory, for any name in extension mode and for a suffix-readable name in suffix mode, whenever the stamp text matches a pattern none of whose matches holds `.` or `/` |
| StampedBase.StampedFileNameBase.constructor | Mendz.Library/Conventions/StampedFileNameBase.cs:74-81 | the fields are the arguments, with the counter clamped |
| StampedBase.StampedFileNameBase.SetFileName | Mendz.Library/Conventions/StampedFileNameBase.cs:26-30 | a blank name raises `ArgumentException` and changes nothing; any other name is stored as given |
| StampedBase.StampedFileNameBase.SetSeparator | Mendz.Library/Conventions/StampedFileNameBase.cs:44-48 | every character is accepted and stored |
| StampedBase.StampedFileNameBase.SetCounter | Mendz.Library/Conventions/StampedFileNameBase.cs:60-64 | the counter becomes the clamped value, and stays non-negative |
| StampedBase.StampedFileNameBase.ToString | Mendz.Library/Conventions/StampedFileNameBase.cs:117-141 | returns `Format` of the current fields, and changes nothing |
| StampedBase.StampedFileNameBase.Deconstruct | Mendz.Library/Conventions/StampedFileNameBase.cs:149-154 | returns the file name, the stamp value and the counter |
| StampedBase.StampedFileNameBase.ToStringWithRetry | Mendz.Library/Conventions/StampedFileNameBase.cs:91-101 | the returned name is ToString at the final counter and is not an existing file; every counter passed over named an existing file |
| StampedBase.NextCounter | Mendz.Library/Conventions/StampedFileNameBase.cs:97 | `Counter++` followed by the setter: one more, except that int.MaxValue wraps and is clamped to 0 |
| StampedBase.Construct | Mendz.Library/Conventions/StampedFileNameBase.cs:74-81 | the constructor's checks: `ArgumentException` exactly for a blank name; otherwise the fields, with the counter clamped |
| StampedBase.New | Mendz.Library/Conventions/StampedFileNameBase.cs:74-81 | the constructor as a call that can throw: a fresh object holding Construct's fields, or `ArgumentException` |
| StampedBase.StampedInjective | Mendz.Library/Conventions/StampedFileNameBase.cs:119-140 | different stamps give different stamped names |
| StampedBase.StampTextInjective | Mendz.Library/Conventions/StampedFileNameBase.cs:119 | different counters give different stamp texts |
| StampedBase.RetryNamesDistinct | Mendz.Library/Conventions/StampedFileNameBase.cs:91-101 | different counters give different names, so the retry loop never tries the same name twice |
| DateStamped.DateStamp | Mendz.Library/Conventions/DateStampedFileName.cs:22 | `DateStamp` is 8 digits that parse back to the date |
| DateStamped.New | Mendz.Library/Conventions/DateStampedFileName.cs:32-33 | the constructor: `ArgumentException` exactly for a blank name; otherwise the given fields and the `yyyyMMdd` formatter |
| DateStamped.Deconstruct | Mendz.Library/Conventions/DateStampedFileName.cs:61-67 | returns the fields and a date stamp of 8 digits that parses back to the date |
| DateStamped.FromPieces | Mendz.Library/Conventions/DateStampedFileName.cs:80-86 | on success, valid fields with the given separator and a date at midnight; errors are `ArgumentException`, `FormatException` and `OverflowException` only |
| DateStamped.Parse | Mendz.Library/Conventions/DateStampedFileName.cs:75-87 | on success, valid fields with the given separator and a date at midnight; errors are those four exceptions only |
| DateStamped.PatternIsNameBound | Mendz.Library/Conventions/DateStampedFileName.cs:78 | no match of the date pattern holds a `.` or a `/` |
| DateStamped.PatternSplits | Mendz.Library/Conventions/DateStampedFileName.cs:78 | a separator-led date match running into the text before another is always cut at it, so a name may hold the separator and still read back |
| DateStamped.DateMatchShape | Mendz.Library/Conventions/DateStampedFileName.cs:78 | a match is 8 digits, optionally followed by the separator and more digits |
| DateStamped.SeparatorInLedDate | Mendz.Library/Conventions/DateStampedFileName.cs:78 | inside a separator-led match, the separator occurs only right after the 8 date digits |
| DateStamped.NoDigitNoLedMatch | Mendz.Library/Conventions/DateStampedFileName.cs:78 | a name without digits holds no separator-led match |
| DateStamped.DigitFreeIsReadable | Mendz.Library/Conventions/DateStampedFileName.cs:78 | every `/`-free name without digits is suffix-readable, whether or not it holds the separator |
| DateStamped.ParseIs | Mendz.Library/Conventions/DateStampedFileName.cs:79-86 | Parse reads the pieces ParseHelper returns, in the path's directory |
| DateStamped.FromPiecesOfStamp | Mendz.Library/Conventions/DateStampedFileName.cs:80-86 | the date stamp and the counter's digits read back as the date and the counter |
| DateStamped.FromPiecesIs | Mendz.Library/Conventions/DateStampedFileName.cs:81-86 | when the date piece and the counter piece read correctly, the result is the constructor's result |
| DateStamped.ParseToString | Mendz.Library/Conventions/DateStampedFileName.cs:75-87 | `Parse(ToString())` gives back every field, with the date truncated to midnight, for a separator other than `/`, a name that recombines from its directory and file name, and, in suffix mode, a suffix-readable name (which may hold the separator) |
| DateStamped.FindsDateText | Mendz.Library/Conventions/DateStampedFileName.cs:78-79 | ParseHelper finds any matching stamp text placed by ToString, in any name in extension mode and in a suffix-readable name in suffix mode |
| DateStamped.ParseRejectsNonCalendarDate | Mendz.Library/Conventions/DateStampedFileName.cs:81 | 8 digits that are no calendar date raise `FormatException` |
| DateStamped.ParseRejectsCounterOverflow | Mendz.Library/Conventions/DateStampedFileName.cs:84 | a counter above int.MaxValue raises `OverflowException` |
| DateStamped.FromPiecesOverflow | Mendz.Library/Conventions/DateStampedFileName.cs:84 | two pieces whose second exceeds int.MaxValue raise `OverflowException` |
| DateStamped.CounterTextMatches | Mendz.Library/Conventions/DateStampedFileName.cs:78 | 8 digits, the separator and digits match the pattern |
| DateStamped.ParseRejectsBlankName | Mendz.Library/Conventions/DateStampedFileName.cs:86 | a stamped blank name raises the constructor's `ArgumentException` |
| DateStamped.ShortTextIsNoStamp | Mendz.Library/Conventions/DateStampedFileName.cs:78 | text shorter than 8 characters never matches |
| DateStamped.NewYear2020Stamp | UnitTest.Mendz.Library/UnitTestDateStampedFileName.cs:14-16 | 2020-01-01 stamps as `20200101` |
| DateStamped.ExampleStampText | UnitTest.Mendz.Library/UnitTestDateStampedFileName.cs:16-20 | the stamp text of the examples is `20200101` in both modes |
| DateStamped.ExampleSuffixPlacement | UnitTest.Mendz.Library/UnitTestDateStampedFileName.cs:17 | `FileName.ext` with stamp `20200101` in suffix mode is `FileName_20200101.ext` |
| DateStamped.ToStringSuffixExample | UnitTest.Mendz.Library/UnitTestDateStampedFileName.cs:14-17 | ToString gives `FileName_20200101.ext` |
| DateStamped.ToStringExtensionExample | UnitTest.Mendz.Library/UnitTestDateStampedFileName.cs:18-21 | ToString in extension mode gives `FileName.ext.20200101` |
| DateStamped.PlainFileName | UnitTest.Mendz.Library/UnitTestDateStampedFileName.cs:28-35 | `FileName.ext` meets ParseToString's conditions, so both Parse examples read back `FileName.ext` and the date |
| DateStamped.SeparatorInFileNameReadsBack | Mendz.Library/Conventions/DateStampedFileName.cs:75-87 | `my_file.txt`, which holds the separator `_`, reads back from its suffix-stamped form |
| DateStamped.StampOnlyFileName | Mendz.Library/Conventions/DateStampedFileName.cs:75-87 | a path `dir/.` + date stamp reads back in extension mode as the name `dir`, the date and counter 0: the empty bare name combines into the directory itself |
| DateStamped.RemovesInnerDate | Mendz.Library/Extensions/StringExtensions.cs:27 | the right-to-left replacement removes a separator-led date inside a name, not only the stamp |
| DateStamped.RemovesEveryDate | Mendz.Library/Conventions/DateStampedFileName.cs:79 | ParseHelper on `a S d b S t ext` with dates `d` and `t` reads the name back as `a b ext`, dropping the inner date as well |
| DateStamped.ParseDropsEveryDate | Mendz.Library/Conventions/DateStampedFileName.cs:75-87 | Parse of a name holding an earlier date after the separator gives back the name without that date |
| DateStamped.StemDateIsLostExample | Mendz.Library/Conventions/DateStampedFileName.cs:75-87 | `a_20200101b.txt` stamped with 2020-01-02 parses back as `ab.txt`: Parse does not invert ToString on a name that already holds a separator-led date |
| DateStamped.StampedBeforeExtension | Mendz.Library/Conventions/StampedFileNameBase.cs:128-137 | in suffix mode the separator and stamp go right before the extension |
| DateTimeStamped.DateStamp | Mendz.Library/Conventions/DateTimeStampedFileName.cs:23 | 8 digits that parse back to the date part |
| DateTimeStamped.TimeStamp | Mendz.Library/Conventions/DateTimeStampedFileName.cs:28 | 6 digits |
| DateTimeStamped.StampValue | Mendz.Library/Conventions/DateTimeStampedFileName.cs:58 | 8 digits, the separator and 6 digits |
| DateTimeStamped.StampValueParses | Mendz.Library/Conventions/DateTimeStampedFileName.cs:90-92 | `ParseExact` reads the stamp back as the moment truncated to the second |
| DateTimeStamped.New | Mendz.Library/Conventions/DateTimeStampedFileName.cs:38-39 | the constructor: `ArgumentException` exactly for a blank name; otherwise the given fields and the date-time formatter |
| DateTimeStamped.Deconstruct | Mendz.Library/Conventions/DateTimeStampedFileName.cs:68-75 | returns the fields and the date and time stamps, which rejoin as the stamp value and parse back to the moment |
| DateTimeStamped.FromPieces | Mendz.Library/Conventions/DateTimeStampedFileName.cs:88-97 | on success, valid fields and a whole-second moment; errors are `ArgumentException`, `IndexOutOfRangeException`, `FormatException` and `OverflowException` only |
| DateTimeStamped.Parse | Mendz.Library/Conventions/DateTimeStampedFileName.cs:83-98 | on success, valid fields and a whole-second moment; errors are those of ParseHelper and FromPieces only |
| DateTimeStamped.MatchHoldsSeparator | Mendz.Library/Conventions/DateTimeStampedFileName.cs:86 | every match holds the separator at position 8 |
| DateTimeStamped.PatternIsNameBound | Mendz.Library/Conventions/DateTimeStampedFileName.cs:86 | no match holds a `.` or a `/` |
| DateTimeStamped.PatternSplits | Mendz.Library/Conventions/DateTimeStampedFileName.cs:86 | a separator-led date-time match running into the text before another is always cut at it |
| DateTimeStamped.DateTimeMatchShape | Mendz.Library/Conventions/DateTimeStampedFileName.cs:86 | a match is 8 digits, the separator, 6 digits, and optionally the separator and more digits |
| DateTimeStamped.NoLedMatchAtEnd | Mendz.Library/Conventions/DateTimeStampedFileName.cs:86 | no proper end part of a separator-led match is itself a separator-led match |
| DateTimeStamped.ParseHasTimePiece | Mendz.Library/Conventions/DateTimeStampedFileName.cs:86-89 | ParseHelper always returns at least two pieces for this pattern |
| DateTimeStamped.FromPiecesReadsTwo | Mendz.Library/Conventions/DateTimeStampedFileName.cs:88-89 | with two pieces, reading `stamp[1]` never fails |
| DateTimeStamped.ParseNeverOutOfRange | Mendz.Library/Conventions/DateTimeStampedFileName.cs:89 | Parse never raises `IndexOutOfRangeException` |
| DateTimeStamped.ParseIs | Mendz.Library/Conventions/DateTimeStampedFileName.cs:87-97 | Parse reads the pieces ParseHelper returns, in the path's directory |
| DateTimeStamped.StampTextPieces | Mendz.Library/Conventions/DateTimeStampedFileName.cs:58 | the stamp text splits into the date stamp, the time stamp and, for a nonzero counter, its digits |
| DateTimeStamped.SplitPieces | Mendz.Library/Conventions/StampedFileNameBase.cs:190 | `Split` on a date, the separator, a time and an optional counter gives those two or three pieces |
| DateTimeStamped.FromPiecesOfStamp | Mendz.Library/Conventions/DateTimeStampedFileName.cs:88-97 | those pieces read back as the moment truncated to the second and the counter |
| DateTimeStamped.FromPiecesIs | Mendz.Library/Conventions/DateTimeStampedFileName.cs:90-97 | when the date-time and counter pieces read correctly, the result is the constructor's result |
| DateTimeStamped.ParseToString | Mendz.Library/Conventions/DateTimeStampedFileName.cs:83-98 | `Parse(ToString())` gives back every field, with the moment truncated to the second, for a separator other than `/` that is no format letter, a name that recombines from its directory and file name, and, in suffix mode, a suffix-readable name (which may hold the separator) |
| DateTimeStamped.FindsDateTimeText | Mendz.Library/Conventions/DateTimeStampedFileName.cs:86-87 | ParseHelper finds any matching stamp text placed by ToString, in any name in extension mode and in a suffix-readable name in suffix mode |
| DateTimeStamped.ParseRejectsNonMoment | Mendz.Library/Conventions/DateTimeStampedFileName.cs:90-92 | digits that name no valid date and time raise `FormatException` |
| DateTimeStamped.ParseRejectsCounterOverflow | Mendz.Library/Conventions/DateTimeStampedFileName.cs:95 | a counter above int.MaxValue raises `OverflowException` |
| DateTimeStamped.CounterTextPieces | Mendz.Library/Conventions/DateTimeStampedFileName.cs:94-95 | a stamp with a counter splits into exactly three pieces, the last being the counter's digits |
| DateTimeStamped.FromPiecesOverflow | Mendz.Library/Conventions/DateTimeStampedFileName.cs:95 | three pieces whose third exceeds int.MaxValue raise `OverflowException` |
| DateTimeStamped.CounterTextMatches | Mendz.Library/Conventions/DateTimeStampedFileName.cs:86 | the date-time digits, the separator and digits match the pattern |
| DateTimeStamped.EarlyNewYear2020Stamps | UnitTest.Mendz.Library/UnitTestDateTimeStampedFileName.cs:14-17 | 2020-01-01 01:15:30 stamps as `20200101` and `011530` |
| DateTimeStamped.ExampleStampText | UnitTest.Mendz.Library/UnitTestDateTimeStampedFileName.cs:14-23 | the stamp text of the examples is `20200101_011530` |
| DateTimeStamped.ExampleSuffixPlacement | UnitTest.Mendz.Library/UnitTestDateTimeStampedFileName.cs:18 | suffix placement gives `FileName_20200101_011530.ext` |
| DateTimeStamped.ToStringSuffixExample | UnitTest.Mendz.Library/UnitTestDateTimeStampedFileName.cs:14-18 | ToString gives `FileName_20200101_011530.ext` |
| DateTimeStamped.ToStringExtensionExample | UnitTest.Mendz.Library/UnitTestDateTimeStampedFileName.cs:19-23 | ToString in extension mode gives `FileName.ext.20200101_011530` |
| StringStamped.New | Mendz.Library/Conventions/StampedFileName.cs:24-25 | the constructor: `ArgumentException` exactly for a blank name; otherwise the given fields, formatting the value as itself |
| StringStamped.FromPieces | Mendz.Library/Conventions/StampedFileName.cs:39-44 | on success, valid fields with the given separator and the detected mode; errors are `ArgumentException`, `FormatException` and `OverflowException` only |
| StringStamped.Parse | Mendz.Library/Conventions/StampedFileName.cs:34-45 | on success, valid fields with the given separator; errors are those of ParseHelper and FromPieces only |
| StringStamped.ParseIs | Mendz.Library/Conventions/StampedFileName.cs:38-44 | Parse reads the pieces ParseHelper returns, in the path's directory |
| StringStamped.FromPiecesOfStamp | Mendz.Library/Conventions/StampedFileName.cs:39-44 | the value and the counter's digits read back as the value and the counter |
| StringStamped.ParseToString | Mendz.Library/Conventions/StampedFileName.cs:34-45 | `Parse(ToString())` gives back every field exactly, when the caller's pattern matches the value, the value does not hold the separator, no match of the pattern holds `.` or `/`, the separator is not `/`, the name recombines and, in suffix mode, is suffix-readable |
| StringStamped.ParsedValueHasNoSeparator | Mendz.Library/Conventions/StampedFileName.cs:39 | a parsed value never holds the separator |
| StringStamped.FromPiecesValue | Mendz.Library/Conventions/StampedFileName.cs:39 | the value is the first piece |
| StringStamped.SeparatorInValueIsLost | Mendz.Library/Conventions/StampedFileName.cs:39-42 | a value holding the separator never reads back |
| Organizer.GetDirectory | Mendz.Library/Conventions/FileOrganizer.cs:122-131 | the bucket is a run of digits, so it is a single directory level |
| Organizer.GetDirectoryReadsBack | Mendz.Library/Conventions/FileOrganizer.cs:124-130 | Date and the default arm give `yyyyMMdd` of the date; YearMonth gives the year and month in 6 digits; Year gives the unpadded year |
| Organizer.CreateDirectoryEffect | Mendz.Library/Conventions/FileOrganizer.cs:120 | `Directory.CreateDirectory`: `ArgumentException` for an empty path; otherwise succeeds exactly when no file holds the directory the path names (one final `/` dropped), then adds only that directory; it never touches a file, and a failure changes nothing |
| Organizer.FinalSlashIsSameDirectory | Mendz.Library/Conventions/FileOrganizer.cs:120 | a directory path with one final `/` exists, is created and is listed exactly as the path without it |
| Organizer.MoveEffect | Mendz.Library/Conventions/FileOrganizer.cs:121 | `File.Move`: `ArgumentException` for an empty source or destination; otherwise succeeds exactly when the source is a file with a name, no file or directory is at the destination and its directory exists; then the file moves with its creation time; a failure changes nothing, and no directory ever changes |
| Organizer.PrepareTarget | Mendz.Library/Conventions/FileOrganizer.cs:120 | `if (!Directory.Exists) CreateDirectory`: succeeds exactly when the target is non-empty and the directory it names (one final `/` dropped) exists or is free, after which it exists; no file changes and the only directory added is the target |
| Organizer.HelperEffect | Mendz.Library/Conventions/FileOrganizer.cs:117-121 | OrganizeHelper adds no directory but the one the target path names, and a failed call moves no file |
| Organizer.OtherDirectoryUnaffected | Mendz.Library/Conventions/FileOrganizer.cs:120 | creating the target path leaves whether any other directory exists as it was |
| Organizer.Enumerate | Mendz.Library/Conventions/FileOrganizer.cs:33 | every element of the set appears exactly once |
| Organizer.FileSystem.constructor | Mendz.Library/Conventions/FileOrganizer.cs:117-121 | the file system holds exactly the given files and directories |
| Organizer.FileSystem.GetCreationTime | Mendz.Library/Conventions/FileOrganizer.cs:20 | `File.GetCreationTime`: `ArgumentException` exactly for an empty path; otherwise the file's time, or 1601-01-01 for a missing file |
| Organizer.FileSystem.Exists | Mendz.Library/Conventions/FileOrganizer.cs:120 | `Directory.Exists`: false for the empty path, and a final `/` names the same directory |
| Organizer.FileSystem.CreateDirectory | Mendz.Library/Conventions/FileOrganizer.cs:120 | `Directory.CreateDirectory`, as CreateDirectoryEffect: `ArgumentException` for an empty path, `IOException` when a file is in the way, otherwise the directory the path names is added |
| Organizer.FileSystem.Move | Mendz.Library/Conventions/FileOrganizer.cs:121 | `File.Move`, as MoveEffect: `ArgumentException` for an empty source or destination, `FileNotFoundException` for a missing source or one naming no file, `IOException` for a destination that is an existing file or directory, `DirectoryNotFoundException` for a missing destination directory; otherwise the file changes path and keeps its creation time |
| Organizer.FileSystem.GetFiles | Mendz.Library/Conventions/FileOrganizer.cs:33 | `Directory.GetFiles`: `ArgumentException` for an empty path, `DirectoryNotFoundException` exactly for a missing directory, otherwise each file directly in the directory the path names (a final `/` dropped) that the wildcard accepts, once |
| Organizer.OrganizeHelper | Mendz.Library/Conventions/FileOrganizer.cs:117-132 | creates the target path if missing, stopping on its exception, then moves the file to target/bucket/name |
| Organizer.DestinationParts | Mendz.Library/Conventions/FileOrganizer.cs:121 | for a source with a file name, the destination keeps that file name and lies directly in the bucket, which is never the target path itself |
| Organizer.HelperSucceedsIff | Mendz.Library/Conventions/FileOrganizer.cs:120-121 | OrganizeHelper succeeds exactly when the target path exists or can be made, the file exists and has a name, no file or directory is at the destination, and the bucket directory already exists |
| Organizer.HelperOntoDirectoryFails | Mendz.Library/Conventions/FileOrganizer.cs:121 | a directory already at the destination makes OrganizeHelper raise, and no file moves |
| Organizer.MoveFrame | Mendz.Library/Conventions/FileOrganizer.cs:121 | a successful move changes no path other than the source and the destination |
| Organizer.MoveKeepsFileCount | Mendz.Library/Conventions/FileOrganizer.cs:121 | a move never changes the number of files |
| Organizer.HelperMovesOneFile | Mendz.Library/Conventions/FileOrganizer.cs:121 | on success the file is at the destination with its creation time, and no other path changed |
| Organizer.HelperKeepsFileCount | Mendz.Library/Conventions/FileOrganizer.cs:120-121 | OrganizeHelper never loses or duplicates a file |
| Organizer.Organize | Mendz.Library/Conventions/FileOrganizer.cs:18-20 | as OrganizeEffect: `ArgumentException` from `File.GetCreationTime` for an empty name, with no change; otherwise OrganizeHelper with the file's creation time |
| Organizer.OrganizeEffect | Mendz.Library/Conventions/FileOrganizer.cs:18-20 | an empty name raises `ArgumentException` before anything changes; otherwise Organize adds no directory but the target and moves no file when it fails |
| Organizer.OrganizeKeepsFileCount | Mendz.Library/Conventions/FileOrganizer.cs:18-20 | Organize never loses or duplicates a file |
| Organizer.OrganizeStamped | Mendz.Library/Conventions/FileOrganizer.cs:65-71 | `ArgumentNullException` and no change for null; otherwise OrganizeHelper on ToString's name with the stamp value |
| Organizer.ByDateStamp | Mendz.Library/Conventions/FileOrganizer.cs:87 | `DateStampedFileName.Parse` only returns objects the constructor accepts |
| Organizer.ByDateTimeStamp | Mendz.Library/Conventions/FileOrganizer.cs:105 | `DateTimeStampedFileName.Parse` only returns objects the constructor accepts |
| Organizer.RunAppend | Mendz.Library/Conventions/FileOrganizer.cs:33-36 | the loop over two listings is the loop over the first, then, unless it raised, over the second |
| Organizer.RunStops | Mendz.Library/Conventions/FileOrganizer.cs:33-36 | after an exception, the remaining files are never reached and the earlier moves stay |
| Organizer.RunKeepsFileCount | Mendz.Library/Conventions/FileOrganizer.cs:33-36 | a loop of count-keeping steps keeps the number of files |
| Organizer.BulkKeepsFileCount | Mendz.Library/Conventions/FileOrganizer.cs:29-107 | no bulk variant ever loses or duplicates a file, whether it completes or stops on an exception |
| Organizer.TaskStepKeepsFileCount | Mendz.Library/Conventions/FileOrganizer.cs:35 | the loop body of every bulk variant keeps the number of files |
| Organizer.StampedStepKeepsFileCount | Mendz.Library/Conventions/FileOrganizer.cs:87 | a stamped loop body keeps the number of files, whether Parse throws or not |
| Organizer.WhenSkipsRejected | Mendz.Library/Conventions/FileOrganizer.cs:53 | OrganizeAllWhen leaves a file the condition rejects untouched, and raises only the `ArgumentException` of `new FileInfo("")` |
| Organizer.WhenOrganizesAccepted | Mendz.Library/Conventions/FileOrganizer.cs:53 | OrganizeAllWhen organizes a file the condition accepts exactly as OrganizeAll does |
| Organizer.RunOfIdleSteps | Mendz.Library/Conventions/FileOrganizer.cs:51-54 | a loop whose steps change nothing changes nothing, and raises nothing when no listed file makes a step raise |
| Organizer.WhenNothingMatches | Mendz.Library/Conventions/FileOrganizer.cs:51-54 | OrganizeAllWhen with a condition no file meets changes nothing, and raises nothing over a listing without the empty path |
| Organizer.ListingHasNoEmptyPath | Mendz.Library/Conventions/FileOrganizer.cs:33 | `Directory.GetFiles` of a non-empty path never lists the empty path |
| Organizer.OrganizeOne | Mendz.Library/Conventions/FileOrganizer.cs:35 | one loop body of any bulk variant, as the step function states it |
| Organizer.OrganizeWhen | Mendz.Library/Conventions/FileOrganizer.cs:53 | the loop body of OrganizeAllWhen: `new FileInfo` raises `ArgumentException` for an empty name; otherwise Organize when the condition holds |
| Organizer.OrganizeParsed | Mendz.Library/Conventions/FileOrganizer.cs:69-70 | Parse's exception propagates; otherwise Organize on the parsed object |
| Organizer.RunListing | Mendz.Library/Conventions/FileOrganizer.cs:33-36 | the foreach loop: each listed file in order, stopping at the first exception |
| Organizer.Run | Mendz.Library/Conventions/FileOrganizer.cs:33-36 | the foreach loop raises only on a non-empty listing, and never when no step can raise |
| Organizer.OrganizeAll | Mendz.Library/Conventions/FileOrganizer.cs:29-37 | `ArgumentException` for an empty source path and `DirectoryNotFoundException` for a missing one, with no change; otherwise the loop over a listing of the source, by creation time, a final `/` on the source naming the same directory |
| Organizer.OrganizeAllWhen | Mendz.Library/Conventions/FileOrganizer.cs:47-55 | `ArgumentException` for an empty source path and `DirectoryNotFoundException` for a missing one, with no change; otherwise the loop over a listing of the source, moving only the files that meet the condition, a final `/` on the source naming the same directory |
| Organizer.OrganizeAllDateStampedFile | Mendz.Library/Conventions/FileOrganizer.cs:81-89 | `ArgumentException` for an empty source path and `DirectoryNotFoundException` for a missing one, with no change; otherwise the loop over a listing of the source, parsing each listed path as a date-stamped name, a final `/` on the source naming the same directory |
| Organizer.OrganizeAllDateTimeStampedFile | Mendz.Library/Conventions/FileOrganizer.cs:99-107 | `ArgumentException` for an empty source path and `DirectoryNotFoundException` for a missing one, with no change; otherwise the loop over a listing of the source, parsing each listed path as a date-time-stamped name, a final `/` on the source naming the same directory |
| Organizer.OrganizeListed | Mendz.Library/Conventions/FileOrganizer.cs:33 | `Directory.GetFiles`, with its `ArgumentException` and `DirectoryNotFoundException` and no change, then the loop over what it listed |
| Identifiers.SeedEffect | Mendz.Library/IDGenerator.cs:42-44 | `ArgumentOutOfRangeException` exactly for a seed below 1; otherwise the ID becomes whichever of the ID and the seed is larger |
| Identifiers.Increment | Mendz.Library/IDGenerator.cs:56 | `Interlocked.Increment`: one more, and int.MaxValue wraps to int.MinValue |
| Identifiers.IDGenerator.constructor | Mendz.Library/IDGenerator.cs:12 | a new generator's ID is 1 |
| Identifiers.IDGenerator.Seed | Mendz.Library/IDGenerator.cs:37-46 | as SeedEffect: a seed below 1 throws and changes nothing; otherwise the ID is raised to the seed and never lowered |
| Identifiers.IDGenerator.Generate | Mendz.Library/IDGenerator.cs:52-58 | increments the ID and returns the new value |
| Identifiers.New | Mendz.Library/IDGenerator.cs:23 | `new IDGenerator(seed)`: `ArgumentOutOfRangeException` exactly for a seed below 1, otherwise ID == seed |
| Identifiers.Apply | Mendz.Library/IDGenerator.cs:37-58 | one call keeps the ID an Int32, never lowers it except for Generate at int.MaxValue, and Generate always changes it |
| Identifiers.Replay | Mendz.Library/IDGenerator.cs:37-58 | a run of Seed and Generate calls keeps the ID an Int32, and records each generated ID and whether one wrapped |
| Identifiers.ReplayWithoutWrap | Mendz.Library/IDGenerator.cs:44-56 | over any run of calls without a wrap, the ID never goes down, and the IDs handed out are strictly increasing, each above the starting ID and at most the final one |
| Identifiers.WrapHandsOutMinimum | Mendz.Library/IDGenerator.cs:56 | Generate at int.MaxValue hands out int.MinValue |
| Identifiers.SeedIdempotent | Mendz.Library/IDGenerator.cs:44 | seeding twice with the same seed is seeding once |
| Identifiers.SeedsCommute | Mendz.Library/IDGenerator.cs:44 | the order of two valid seeds does not matter |
| Identifiers.GenerateAfterSeedExample | UnitTest.Mendz.Library/UnitTestIDGenerator.cs:110-119 | after Seed(101), Generate returns 102, and a second Generate leaves the ID at 103 |
| Identifiers.SeedLowerExample | UnitTest.Mendz.Library/UnitTestIDGenerator.cs:70-76 | new IDGenerator(101), then Seed(100), leaves the ID at 101 |
| Identifiers.SeedBelowOneExample | UnitTest.Mendz.Library/UnitTestIDGenerator.cs:32-49 | new IDGenerator(0) and Seed(-1) both raise `ArgumentOutOfRangeException`, and the ID stays 1 |

## Left out

- **Null strings.** The model has no null string: a blank file name is empty or all white space. `ArgumentNullException` is modelled only for the `Organize<T>` null check, where a `StampedFileNameBase?` reference can be null.
- **Regular expressions.** Four semantic details are modelled differently:
  - `$` is the end of the string. .NET also lets it match before a final `\n`, which a file name does not hold.
  - `\d` is an ASCII digit. .NET accepts every Unicode decimal digit.
  - A caller's `StampedFileName` pattern is given by the strings it matches as a whole. The right-to-left search takes the longest match at the rightmost end, which .NET's backtracking engine need not do for an arbitrary caller pattern.
  - `StampedFileName.Parse` splices the caller's pattern into the regular expression as plain text. A caller pattern with a top-level `|` therefore attaches the counter group, the leading `\.` and the final `$` to one alternative only. `StringStamped.PatternFor` joins the caller's language with the counter's, as if the pattern were grouped, and the ungrouped case is not modelled.
- **The regular-expression engine.** `Regex` is not modelled as a general engine. Only the three searches ParseHelper makes, on the three pattern shapes, are modelled.
- **Separators Parse does not handle.** The separator is spliced into the pattern without escaping.
  - Parse therefore requires `ValidSeparator`: not a digit, not `.`, and not a regular-expression metacharacter. `ValidSeparator` admits `/`.
  - The round-trip lemmas also require the separator not to be `/`. With `/` as separator, `Path.GetFileName` cuts the suffix stamp off the file name.
  - `DateTimeStampedFileName.Parse` also requires `IsFormatLiteral`: the separator is not a `ParseExact` format letter, quote or backslash.
  - For other separators, .NET builds a different pattern or format, and this is not modelled.
- **Parse's result.** Parse returns the record of fields the constructor receives. It does not allocate the object; the `New` methods do that.
- StampedBase.StampedFileNameBase.ToStringWithRetry: requires that some counter value gives a name not in the existing set. Without one, the source loops forever, and a method that cannot terminate has no Dafny counterpart. `File.Exists` is the set of existing paths, passed as a parameter.
- StringStamped.ParseToString: holds only when the caller's pattern matches no text holding `.` or `/`. A caller pattern that can reach across the extension dot or into a directory can make ParseHelper read a different span, and that case is not modelled. It also holds only when, in suffix mode, either the pattern cuts every separator-led match at the stamp (`StampSplits`) or the stem holds no separator; the built-in date and date-time patterns meet the first.
- Paths.GetDirectoryName: keeps a doubled `/` inside the directory part, where .NET collapses it. Such a path does not recombine, and the round-trip lemmas exclude it.
- Organizer.MoveEffect: a source path ending in `/` names no file and is modelled as `FileNotFoundException`; the exception .NET raises for such a path is not modelled.
- **Clock constructors.** The constructors that default the stamp to `DateTime.Today` or `DateTime.Now` read the clock, so they are left out. The constructors taking an explicit date are modelled.
- **Culture and time zones.** `DateTime` is a record of whole fields: no ticks beyond the second in stamps, no time zone, and the invariant culture's Gregorian calendar for years 1 to 9999. `File.GetCreationTime` returns 1601-01-01 for a missing file; its conversion to local time is not modelled.
- **Paths.** Only `/` is a directory separator. Drive letters, `\` and `Path.Combine`'s handling of rooted second arguments are not modelled.
- **The file system.** It is a map from paths to creation times and a set of directories.
  - Directory paths are compared as strings after dropping one final `/`. Several final `/`, `.` and `..` segments, and case are not normalised.
  - `Directory.CreateDirectory` does not create missing ancestors.
  - `File.Move` onto its own path is an `IOException`.
  - `FileInfo` is reduced to the full name and the creation time.
  - The wildcard of `Directory.GetFiles` is given by the file names it accepts.
  - The listing order is unspecified: the bulk methods return the listing they used as a ghost out-parameter.
- **Threads.** The `lock`, `volatile` and `Interlocked` of IDGenerator are left out. Calls are sequential.
- **The rest of the library.** Process launching, the mappers, `SingletonBase` and the stream extensions are not part of this model.
- **Literal Parse examples.** The unit tests' Parse examples on literal paths are covered by the general `ParseToString` lemmas and `DateStamped.PlainFileName`, not by lemmas on the literal strings.
