# plpftp session core, modelled in Dafny

This project models the interactive file-transfer session of `plpftp`, the
command-line client that talks to a Psion handheld over the `rfsv` and
`rpcs` links. It also models the directory-entry and drive records of
`lib/plpdirent.cc`. The model covers:

- **Glob matching** (`wildmat.dfy`, module `Glob`). `Wildmat` and `Star` are
  the pattern matcher that `mget` and `mput` use. They are modelled as
  written: index based, with `?`, `*`, `[...]`, `[^...]`, ranges and `\`
  escapes. They are proved equal to a declarative reading: a pattern
  parses into tokens, and a name matches when it belongs to the language of
  those tokens.
- **The command tokenizer** (`tokenizer.dfy`, module `Tokenizer`).
  `getCommand` splits a line in place. Blanks outside quotes become NUL,
  a closing quote becomes NUL, and every word start is recorded. The model
  works on an `array<char>` and is proved against a fold of one step per
  character. Words joined by single spaces scan back to the same words.
- **Paths** (`paths.dfy`, module `Paths`). This module covers three things:
  - the inline `cd ..` of the session's `cd` handler;
  - the trailing-separator rule and the `/` to `\` mapping;
  - the helper `ftp::cd`, which walks a relative path segment by segment.
- **`sattr` flags** (`flags.dfy`, module `Sattr`). A flag word such as
  `+rh-s` is parsed into a set mask and a clear mask. Each attribute ends
  up where the last `+`/`-` before its last letter puts it.
- **`kill` and `run`** (`processes.dfy`, module `Processes`). This module
  models:
  - `sscanf("%d")` on each argument, and the special word `all`, which
    means pid -1;
  - the handle `name.$pid` of each process stopped;
  - the program path and argument buffer of `run`.
- **The session** (`session.dfy`, module `Session`). The class `Session`
  holds the state kept between commands: `psionDir`, `localDir`, `prompt`,
  `hash`, the progress callback `cab` and `continueRunning`. The handlers
  that change that state are modelled:
  - `cd` and `lcd`;
  - the two toggles;
  - `get` and `put` with their elapsed-time report;
  - the batch commands `mget` and `mput`, which answer y/n questions from
    the input lines;
  - the AUTO default-drive scan;
  - the one-shot `argv` set-up.
- **The dispatcher** (`dispatch.dfy`, module `Dispatch`):
  - `Route` selects a command from the first word and the word count. It
    looks the word up by its first character (`KeywordOf`), which is
    proved to agree with comparing the whole word against every name the
    source tests (`Spells`, `KeywordOfMeaning`). No two names are the same
    word, so the order of the source's tests does not change the result.
  - `Execute` runs one command against the session: `Handle` runs those
    that change the session, and `Answer` runs the rest. `Answer` is
    specified by the function `Reply`.
  - `Next` reads one command and runs it, and `Loop` reads lines until
    `bye` or `quit`. The end of input reads as `bye`.
- **Directory entries and drives** (`dirent.dfy`, module `Dirent`):
  - `PlpUID` and its indexed word;
  - the class `PlpDirent`, with its constructors, assignment and `setName`;
  - the class `PlpDrive`, with its setters, the 64-bit size and space built
    from two 32-bit halves, and the comma-joined attribute descriptions.

Every call into the device link is a function parameter or a field of
`Dispatch.Link`: `dircount`, `dir`, `copyFromPsion`, `copyToPsion`,
`devlist`, `devinfo` and the process list. The host's `chdir`/`getcwd` and
the local directory listing are fields of `Dispatch.Host`. The clock is a
parameter. Characters compare by code point (unsigned).

## Model

| member | source | states |
|---|---|---|
| Glob.Wildmat | plpftp/ftp.cc:120-160 | the loop over pattern and name returns exactly the as-written match function `Match` |
| Glob.Star | plpftp/ftp.cc:111-118 | tries the rest of the pattern at every later position of the name, equal to `StarFrom` |
| Glob.StarFromExists | plpftp/ftp.cc:111-118 | a star succeeds iff the rest of the pattern matches some suffix of the name |
| Glob.MatchMeaning | plpftp/ftp.cc:120-160 | the matcher succeeds iff the pattern parses and the name is in the language of its tokens |
| Glob.StarMeaning | plpftp/ftp.cc:144-146 | the same equivalence for a pattern position holding `*` |
| Glob.ScanClassMeaning | plpftp/ftp.cc:147-157 | the character-class scan accepts a character iff one of the parsed class items (single or range) accepts it; an unterminated class is detected by both |
| Glob.MatchAtEndAnywhere | plpftp/ftp.cc:111-118 | a pattern rest that matches at the end of the name (only a run of `*` can) matches at every earlier position, which is why `Star` may stop before the terminator |
| Glob.MatchesIsGlob | plpftp/ftp.cc:120-160 | the as-written matcher and the declarative glob agree on every name and pattern |
| Glob.MalformedSelectsNothing | plpftp/ftp.cc:127-157 | a pattern that does not parse (trailing `\`, unterminated class) matches no name |
| Glob.SingleTokens | plpftp/ftp.cc:127-159 | a literal matches only itself, `\c` only `c`, `?` any one character, `*` everything, the empty pattern only the empty name |
| Glob.StarExamples | plpftp/ftp.cc:111-159 | a suffix glob matches case-sensitively; `*` matches the empty name; `*x` fails on it |
| Glob.ClassExamples | plpftp/ftp.cc:127-159 | `?`, a class and a negated class match or refuse the expected names |
| Glob.EscapeExamples | plpftp/ftp.cc:120-159 | the empty pattern refuses a name; an escaped star matches only a star |
| Tokenizer.GetCommand | plpftp/ftp.cc:1084-1104 | the buffer after the split is the fold's output, and the word offsets are the fold's offsets |
| Tokenizer.GetCommandCapped | plpftp/ftp.cc:1084-1104 | corrected: the same split, keeping only the first ten offsets (`Capped`), as the ten-entry `argv` holds |
| Tokenizer.Capped | plpftp/ftp.cc:196 | the offsets kept are the first ones of the split, at most ten, all of them when there are no more than ten |
| Tokenizer.ScanQuote | plpftp/ftp.cc:1092-1095 | the scanner is inside quotes iff an odd number of quote characters has been read |
| Tokenizer.ScanOut | plpftp/ftp.cc:1086-1095 | each output character is NUL iff it is an unquoted blank or a closing quote; otherwise it is the input character |
| Tokenizer.ScanWs | plpftp/ftp.cc:1084-1101 | the word-separator flag holds iff no ordinary character came after the last unquoted blank |
| Tokenizer.ScanStarts | plpftp/ftp.cc:1097-1101 | the recorded offsets are exactly the word starts of the line, strictly increasing |
| Tokenizer.JoinRoundTrip | plpftp/ftp.cc:1084-1104 | plain words joined by single spaces split back into the same words |
| Tokenizer.QuotedRoundTrip | plpftp/ftp.cc:1092-1095 | a quoted word keeps its blanks and comes back as one word |
| Tokenizer.NoWordsIffNoOrdinary | plpftp/ftp.cc:1097-1101 | a line has no word iff it holds no character other than blanks and quotes |
| Tokenizer.BlankLineHasNoWords | plpftp/ftp.cc:1059-1101 | a line of one blank is not empty yet has no word |
| Tokenizer.ElevenWordsOverflow | plpftp/ftp.cc:196 | eleven words record eleven offsets, more than the ten `argv` slots |
| Paths.CdUp | plpftp/ftp.cc:488-500 | the backwards search for a separator cuts the directory to its parent, equal to `Parent` |
| Paths.ParentShape | plpftp/ftp.cc:488-500 | the parent is a prefix of the directory and keeps at least its first three characters; a parent longer than three characters ends in a separator, and a directory longer than three characters gets shorter |
| Paths.ParentOfChild | plpftp/ftp.cc:488-500 | the parent of `dir + seg + sep` and of `dir + seg` is `dir` |
| Paths.ParentAtRoot | plpftp/ftp.cc:488-500 | at the drive root `C:\` the parent is the root itself |
| Paths.WithTrailingMeaning | plpftp/ftp.cc:509-510 | the trailing separator is added only when missing, the path is kept, and adding is idempotent |
| Paths.CdTargetMeaning | plpftp/ftp.cc:502-510 | an absolute argument (separator or drive letter) is kept as is, a relative one is appended to the directory; the result ends in a separator |
| Paths.MapSlashes | plpftp/ftp.cc:512-514 | every `/` of the buffer becomes `\` in place and nothing else changes |
| Paths.BackslashedMeaning | plpftp/ftp.cc:512-514 | the mapping keeps every non-separator, keeps separators separators, leaves no `/`, and is idempotent |
| Paths.CdResolve | plpftp/ftp.cc:1119-1158 | `ftp::cd` gives `Resolve`: none for an empty target, else the absolute target or the segment walk |
| Paths.WalkLoop | plpftp/ftp.cc:1130-1156 | the loop over segments gives `Walk` of the source directory and the target |
| Paths.Advance | plpftp/ftp.cc:1131-1155 | one turn of the loop moves past a segment and its separator and keeps the remaining walk's result |
| Paths.WalkAdvance | plpftp/ftp.cc:1131-1155 | applying the segment at a position and walking the rest from after it is the walk from that position |
| Paths.SegmentAt | plpftp/ftp.cc:1133-1139 | the segment length is the run of non-separators from the position |
| Paths.CutUp | plpftp/ftp.cc:1141-1148 | a `..` segment cuts the directory back to its parent, equal to `Up` |
| Paths.ApplyStep | plpftp/ftp.cc:1141-1154 | one segment: `..` goes up, anything else goes down with a `/` |
| Paths.UpDown | plpftp/ftp.cc:1141-1153 | going down into a segment and back up returns to the directory |
| Paths.WalkDownUp | plpftp/ftp.cc:1130-1156 | walking `seg/..` from a directory ending in a separator returns to it |
| Paths.WalkKeepsTrailing | plpftp/ftp.cc:1130-1156 | a walk from a directory ending in a separator ends in a separator |
| Paths.ResolveMeaning | plpftp/ftp.cc:1119-1158 | the result is absent iff the target is empty; an absolute target gets a trailing `/`; the result ends in a separator when the target is absolute or the source ends in one (`abc` with `..` stays `abc`) |
| Sattr.ParseFlags | plpftp/ftp.cc:376-411 | the loop over the flag word with the two-entry mask array gives the masks of `FlagsOf` |
| Sattr.MaskValueMeaning | plpftp/ftp.cc:393-406 | the bit value `r`=1, `h`=2, `s`=4, `a`=0x20 of a mask holds each member's bit and determines the mask |
| Sattr.ModeIsClearing | plpftp/ftp.cc:386-392 | the scanner is in clear mode iff the last `+`/`-` read is `-` |
| Sattr.AttrMeaningHolds | plpftp/ftp.cc:386-408 | an attribute is set (cleared) iff its letter occurs and the last `+`/`-` before its last occurrence is `+` (`-`), `+` by default |
| Sattr.FlagsMeaning | plpftp/ftp.cc:376-411 | that holds for every attribute, and the set and clear masks are disjoint |
| Sattr.SetThenClear | plpftp/ftp.cc:381-411 | `+r-h` gives set mask 0x01 and clear mask 0x02 |
| Sattr.LaterLetterWins | plpftp/ftp.cc:381-411 | in `-rw+r` the later `+r` wins and `w` is ignored |
| Sattr.SetByDefault | plpftp/ftp.cc:381-411 | without a sign `ra` sets read-only and archive, mask 0x21 |
| Processes.Kill | plpftp/ftp.cc:872-901 | the handles stopped are `KillFrom` of the arguments, and "killed any" holds iff some process was stopped |
| Processes.StopMatching | plpftp/ftp.cc:885-895 | one pass over the process list stops exactly the processes the pid selects |
| Processes.KillArg | plpftp/ftp.cc:877-898 | one argument: `all` stops every process and ends the scan, a number stops its matches and the scan goes on |
| Processes.SelectedMeaning | plpftp/ftp.cc:885-895 | a handle is stopped for a pid iff some process has that pid (or the pid is -1) and that handle |
| Processes.KillWithMeaning | plpftp/ftp.cc:877-898 | a handle is stopped iff an argument considered before the first -1 selects it |
| Processes.KillMeaning | plpftp/ftp.cc:872-901 | the same, stated on the argument words |
| Processes.KillAll | plpftp/ftp.cc:877-898 | `kill all ...` stops every process and ignores the later arguments |
| Processes.MinusOneMeansAll | plpftp/ftp.cc:880-884 | the argument `-1` reads as pid -1, the same as `all` |
| Processes.NonNumberSelectsNothing | plpftp/ftp.cc:880-884 | an argument that is not a number (such as `x`) stops nothing: with or without it the other arguments stop the same handles |
| Processes.ScanIntOfDecimal | plpftp/ftp.cc:883-884 | `%d` reads back a decimal number and its negation |
| Processes.HandleNamesPid | plpftp/ftp.cc:890-893 | the handle is the process name followed by `.$` and the pid in decimal, which reads back as the pid |
| Processes.ArgBuf | plpftp/ftp.cc:763-770 | the argument buffer is the words after the program joined by single spaces |
| Processes.ArgBufRoundTrip | plpftp/ftp.cc:763-770 | that buffer splits back into the same words |
| Processes.ProgramPathShape | plpftp/ftp.cc:771-775 | the path ends with the program name; a name with a drive letter is used as it is, any other is put under the device directory, so the path names a drive whenever that directory does |
| Session.CheckAbort | plpftp/ftp.cc:163-175 | both callbacks report `continueRunning`; only the hash callback prints, and only while running |
| Session.CdCandidateShape | plpftp/ftp.cc:482-514 | the directory `cd` asks about is non-empty and ends in a separator, which after mapping is `\` |
| Session.CdUpStaysOnDrive | plpftp/ftp.cc:488-500 | `cd ..` keeps the drive prefix and stays at the root when already there |
| Session.CdUpAtRootIdempotent | plpftp/ftp.cc:488-500 | `cd ..` at the drive root asks about the root itself |
| Session.Elapsed | plpftp/ftp.cc:546-552 | the seconds and hundredths are the quotient and remainder of the elapsed hundredths, hundredths in 0..99 |
| Session.ElapsedExample | plpftp/ftp.cc:546-552 | 10.9 s to 11.2 s reports 0.30 s |
| Session.AskMeaning | plpftp/ftp.cc:579-590 | the question reads lines until the first `y` or `n`; none left means no answer |
| Session.AskLoop | plpftp/ftp.cc:579-590 | the question loop returns the index of the first accepted line, or -1 at end of input, equal to `Ask` |
| Session.Answer | plpftp/ftp.cc:579-591 | without prompting every file is taken; with prompting the first `y`/`n` decides and end of input stalls |
| Session.BatchStopsForGood | plpftp/ftp.cc:570-613 | once a batch has stalled, further files change nothing |
| Session.BatchUsedBound | plpftp/ftp.cc:579-590 | a batch never reads more answers than there are lines |
| Session.BatchCopiesOffered | plpftp/ftp.cc:563-615 | every file whose copy was attempted (failed ones included) is an eligible file of the listing, and a failure is the last attempt, on an eligible file that failed |
| Session.BatchWithoutPrompt | plpftp/ftp.cc:570-613 | with prompting off and every copy succeeding, every eligible file is copied in order and no answer is read |
| Session.BatchAnswer | plpftp/ftp.cc:579-600 | a copy is started iff the answer is `y`; an `n` only uses up the answer; end of input stalls the batch with every answer used; no other line (`l`) is taken as an answer |
| Session.MgetOffers | plpftp/ftp.cc:570-578 | a device entry is offered by `mget` iff it is not a directory and its name matches the pattern |
| Session.MputOffers | plpftp/ftp.cc:667-674 | a local entry is offered by `mput` iff it can be examined, is a regular file and its name matches the pattern |
| Session.LowestDriveMeaning | plpftp/ftp.cc:263-278 | the drive found is present and answers, and no lower drive does |
| Session.ScanDrives | plpftp/ftp.cc:270-277 | the shift-and-test loop finds `LowestDrive` |
| Session.DefaultDrive | plpftp/ftp.cc:263-284 | a configured drive is used as is; under AUTO the lowest present drive's letter and `:`, or the fatal exit when none |
| Session.Session.constructor | plpftp/ftp.cc:188-292 | a new session starts in `defDrive + baseDir` with prompting on, hash off, running |
| Session.Session.TogglePrompt | plpftp/ftp.cc:302-306 | the prompt flag flips and nothing else changes |
| Session.Session.ToggleHash | plpftp/ftp.cc:307-312 | the hash flag flips, the callback follows it, and nothing else changes |
| Session.Session.Interrupt | plpftp/ftp.cc:177-181 | an interrupt clears `continueRunning` and nothing else changes |
| Session.Session.Lcd | plpftp/ftp.cc:469-481 | no argument returns to the working directory; a successful `chdir` moves there; a failed one changes nothing; a `/` is appended |
| Session.Session.Cd | plpftp/ftp.cc:482-523 | no argument returns home; otherwise the candidate directory becomes current (in backslash form) iff the device can count its entries |
| Session.Session.Get | plpftp/ftp.cc:524-562 | the device and local names are built from the two directories; a failed copy sets `continueRunning`; a successful one reports the elapsed time |
| Session.Session.Put | plpftp/ftp.cc:616-655 | the same for the opposite direction |
| Session.Session.Mget | plpftp/ftp.cc:563-615 | the files whose copy was attempted, the answers read and the stall are those of `BatchRun` over the listing; no listing does nothing |
| Session.Session.Mput | plpftp/ftp.cc:656-708 | the same over the local listing |
| Session.Session.Run | plpftp/ftp.cc:759-777 | the program path and the joined argument buffer handed to the launcher |
| Session.SattrAsWritten | plpftp/ftp.cc:376-380 | with the guard as written (`argc == 2`) the file comes from the third slot, so a request is made iff that slot holds a word |
| Session.Reread | plpftp/ftp.cc:1056-1101 | reading a line into the static buffer replaces its start with the new line and a NUL and keeps the bytes past them |
| Session.SattrReadsStaleSlot | plpftp/ftp.cc:376-380 | `sattr +r` reads its file from the text at the old third word's offset in the reused line buffer: `old.txt` after `ren a.txt old.txt`, but `+r` itself after `ren a b`, whose third word the new line overwrote; a slot holding no text gives no file |
| Session.StaleThirdWord | plpftp/ftp.cc:1056-1101 | after `ren a.txt old.txt`, reading `sattr +r` leaves `old.txt` at offset 10, the old third word's offset |
| Session.OverwrittenThirdWord | plpftp/ftp.cc:1056-1101 | after `ren a b`, reading `sattr +r` puts `+r` at offset 6, the old third word's offset |
| Session.SattrCommand | plpftp/ftp.cc:376-415 | corrected: the file is named under the device directory and the masks are the flag word's, disjoint, each attribute set or cleared as its last sign says |
| Session.OnceArgsAsWritten | plpftp/ftp.cc:205-210 | `argc` is the whole argument count capped at ten, including the program name, with one slot for each |
| Session.OnceArgsLastSlotIsNull | plpftp/ftp.cc:205-210 | with fewer than ten words the last slot is the null pointer; `plpftp get a.txt` gives `get`, `a.txt` and a null slot |
| Session.OnceArgs | plpftp/ftp.cc:205-210 | corrected: `argc` counts the words after the program name, at most ten, and each slot holds its word |
| Session.ReadAsWritten | plpftp/ftp.cc:1059-1083 | the line taken is never empty: the first non-empty line, or `bye` when every line is empty |
| Session.BlankLineReachesDispatch | plpftp/ftp.cc:1059-1101 | a line holding one blank is taken and has no word |
| Session.ReadCommand | plpftp/ftp.cc:1059-1083 | corrected: the line taken has a word, every line before it has none, and the end of input reads as `bye` |
| Dispatch.KeywordOf | plpftp/ftp.cc:298-918 | a word starting with `!` selects the shell and nothing else does; `bye` and `quit`, and only they, select the exit |
| Dispatch.SpellingFound | plpftp/ftp.cc:298-921 | every spelling the source compares against (`ls`/`dir`, `del`/`rm`, `bye`/`quit`, one name for each other command) is looked up as its command |
| Dispatch.FoundIsSpelling | plpftp/ftp.cc:298-921 | a word looked up as a command is one of that command's spellings |
| Dispatch.KeywordOfMeaning | plpftp/ftp.cc:298-921 | a word is looked up as a command iff it is one of that command's spellings, and a word looked up as no command spells none |
| Dispatch.Route | plpftp/ftp.cc:298-921 | with the corrected `sattr` guard (see Findings): the command selected carries exactly the words its handler reads, and only under the handler's word-count guard |
| Dispatch.RouteSelectsPlain | plpftp/ftp.cc:298-317 | `help`, `prompt`, `hash` and `pwd` are selected iff the first word is that name, whatever follows |
| Dispatch.RouteSelectsListings | plpftp/ftp.cc:416-468 | `dircnt`, `devs` and `ls`/`dir` likewise |
| Dispatch.RouteSelectsQueries | plpftp/ftp.cc:779-917 | `machinfo` and `ps` likewise |
| Dispatch.RouteSelectsConfig | plpftp/ftp.cc:751-758 | `x` and `y` likewise |
| Dispatch.RouteSelectsFiles | plpftp/ftp.cc:318-375 | `ren` is selected iff its name comes with three words; `touch`, `test`, `gattr` and `gtime` iff theirs comes with two |
| Dispatch.RouteSelectsRemovals | plpftp/ftp.cc:709-730 | `del`/`rm` and `rmdir` are selected iff the name comes with two words |
| Dispatch.RouteSelectsChanges | plpftp/ftp.cc:376-730 | `mkdir` is selected iff its name comes with two words; `sattr`, under the corrected guard, iff with three |
| Dispatch.RouteSelectsDirs | plpftp/ftp.cc:469-523 | `lcd` and `cd` are selected iff the first word is that name, with any number of words |
| Dispatch.RouteSelectsTransfers | plpftp/ftp.cc:524-655 | `get` and `put` are selected iff the name comes with at least two words |
| Dispatch.RouteSelectsBatches | plpftp/ftp.cc:563-708 | `mget` and `mput` are selected iff the name comes with exactly two words |
| Dispatch.RouteSelectsPrograms | plpftp/ftp.cc:759-902 | `run` and `kill` are selected iff the name comes with at least two words |
| Dispatch.RouteSelectsSaves | plpftp/ftp.cc:831-871 | `runrestore` and `killsave` are selected iff the name comes with exactly two words |
| Dispatch.RouteUnknown | plpftp/ftp.cc:918-919 | a first word that spells no name and does not start with `!` is a syntax error |
| Dispatch.RouteQuit | plpftp/ftp.cc:918-921 | a command ends the loop iff its first word is `bye` or `quit` |
| Dispatch.RouteShell | plpftp/ftp.cc:731-749 | a first word starting with `!` always runs the shell, with the rest of the words after single spaces |
| Dispatch.RouteReady | plpftp/ftp.cc:298-921 | the words of a line leave every selected handler the arguments it indexes |
| Dispatch.GetNeedsAFile | plpftp/ftp.cc:524 | `get` alone is a syntax error |
| Dispatch.MgetTakesOnePattern | plpftp/ftp.cc:563 | `mget` with two patterns is a syntax error |
| Dispatch.SattrNeedsAFile | plpftp/ftp.cc:376-380 | with the corrected guard (see Findings): `sattr +r` is a syntax error and `sattr +r f` sets the flags of `f` |
| Dispatch.BareCdGoesHome | plpftp/ftp.cc:482-490 | a bare `cd` selects `cd` with no words |
| Dispatch.KillAllRoutes | plpftp/ftp.cc:872-880 | `kill all` selects `kill` with the word `all` |
| Dispatch.ShellExample | plpftp/ftp.cc:731-749 | `!ls -l` hands `ls -l` to the shell |
| Dispatch.Execute | plpftp/ftp.cc:298-921 | one command runs its handler with the effect `Effect` states: `lcd` sets the local directory (working directory, `chdir` target or unchanged), `cd` the device directory (home, or the candidate iff the device counts its entries), the toggles flip their flag; `get` and `put` copy between the two built names, report the elapsed time on success and set `continueRunning` on failure; `mget` and `mput` give the `BatchRun` of their listing and the answers it reads; every other command hands on `Reply` and changes nothing |
| Dispatch.Handle | plpftp/ftp.cc:302-708 | the handlers of the toggles, `lcd`, `cd` and the four transfers, with the effect `Effect` states |
| Dispatch.HandleSettings | plpftp/ftp.cc:302-523 | the toggles, `lcd` and `cd`, with their `Effect` and no answer read |
| Dispatch.HandleTransfer | plpftp/ftp.cc:524-708 | the four transfers, with their `Effect` |
| Dispatch.HandleCopy | plpftp/ftp.cc:524-655 | `get` and `put`, with their `Effect` and no answer read |
| Dispatch.HandleBatch | plpftp/ftp.cc:563-708 | `mget` and `mput`, with their `Effect` |
| Dispatch.EffectFrames | plpftp/ftp.cc:298-921 | whatever a command does: only `cd` changes the device directory, only `lcd` the local one, only the toggles their flags; only transfers set `continueRunning` and nothing clears it; only the batches read answers |
| Dispatch.EffectConsumed | plpftp/ftp.cc:579-590 | a batch reads no more answers than there are lines |
| Dispatch.Reply | plpftp/ftp.cc:318-902 | file requests, renames and `sattr` name files under the device directory; `sattr`'s masks are disjoint; `run` launches the named program or one under the device directory; `kill` reports a kill iff it stopped something; the session-changing commands hand on nothing |
| Dispatch.Answer | plpftp/ftp.cc:318-902 | the handlers that leave the session alone hand on `Reply` of the device directory |
| Dispatch.CommandWords | plpftp/ftp.cc:1084-1104 | a line gives at most ten words |
| Dispatch.CommandWordsOk | plpftp/ftp.cc:1084-1104 | the words of a line without NUL are non-empty and hold no NUL |
| Dispatch.ByeLine | plpftp/ftp.cc:1059-1083 | the end-of-input line `bye` is the single word `bye` |
| Dispatch.Next | plpftp/ftp.cc:294-921 | one turn: the command is `Route` of the first ten words of the first line with a word (the end of input reads as `bye`), every line before it has no word, and it runs with the effect `Effect` states, using up the answers a batch reads; the command line and the answers are used up |
| Dispatch.Turn | plpftp/ftp.cc:294-921 | the same turn placed in the whole input: the command is read at an index after wordless lines, and unless it quits the next turn starts right after it, or after the answers of a batch |
| Dispatch.Loop | plpftp/ftp.cc:294-921 | the commands run are, in order, `Route` of the words of the lines at increasing indices; the lines skipped before each hold no word unless they are a batch's answers; the loop ends at the first `bye`/`quit` and at nothing else; without `cd` the device directory is unchanged, without `prompt` the prompt flag |
| Dirent.UIDWord | lib/plpdirent.cc:34-38 | a UID word exists exactly for indices 0 to 2 |
| Dirent.GetUID | lib/plpdirent.cc:74-79 | indices 0 to 2 give the UID word, any other gives 0; it agrees with the as-written version except at 3 |
| Dirent.GetUIDAsWritten | lib/plpdirent.cc:74-79 | indices 0 to 2 give the UID word, index 3 aborts in the index operator, any other index gives 0 |
| Dirent.GetUIDThreeAborts | lib/plpdirent.cc:74-79 | index 3, and no other, aborts |
| Dirent.PlpDirent.constructor | lib/plpdirent.cc:53-62 | size, attributes, time and name as given, zero UID, empty attribute text |
| Dirent.PlpDirent.Empty | lib/plpdirent.cc:40-42 | every field zero or empty |
| Dirent.PlpDirent.Copy | lib/plpdirent.cc:44-51 | every field copied from the other entry |
| Dirent.PlpDirent.Assign | lib/plpdirent.cc:101-110 | assignment copies every field |
| Dirent.PlpDirent.SetName | lib/plpdirent.cc:96-99 | the name changes and nothing else |
| Dirent.PlpDirent.GetUIDWord | lib/plpdirent.cc:74-79 | the method returns `GetUID` of the entry's UID |
| Dirent.CombineHalves | lib/plpdirent.cc:149-157 | the 64-bit value splits back into its 32-bit halves, and every value below 2^64 is so built |
| Dirent.DelimitedRoundTrip | lib/plpdirent.cc:193-198 | labels joined with commas split back into the same labels; the join is empty iff there are no labels |
| Dirent.DelimitedEnds | lib/plpdirent.cc:193-198 | a non-empty join neither starts nor ends with a comma |
| Dirent.ChosenMeaning | lib/plpdirent.cc:200-234 | a label is chosen iff its bit is set among the first n |
| Dirent.DescribeMeaning | lib/plpdirent.cc:200-234 | the description is empty iff no label bit is set, and otherwise it splits into exactly the chosen labels in bit order |
| Dirent.HighBitsIgnored | lib/plpdirent.cc:200-234 | bits above the label table do not change the description |
| Dirent.DescribeExample | lib/plpdirent.cc:200-215 | drive attribute 5 reads `local,redirected`; media attribute 0 reads as empty |
| Dirent.MediaTypesDistinct | lib/plpdirent.cc:171-181 | the nine media-type names are pairwise distinct |
| Dirent.PlpDrive.Copy | lib/plpdirent.cc:126-127 | the copy has every field of the original |
| Dirent.CopyAsWritten | lib/plpdirent.cc:126-127 | the copy constructor as written: an empty name and otherwise whatever the storage held, nothing of the original |
| Dirent.CopyLosesFields | lib/plpdirent.cc:126-127 | a copy of a drive with a volume name differs from it |
| Dirent.PlpDrive.SetMediaType | lib/plpdirent.cc:129-132 | only the media type changes |
| Dirent.PlpDrive.SetDriveAttribute | lib/plpdirent.cc:134-137 | only the drive attribute changes |
| Dirent.PlpDrive.SetMediaAttribute | lib/plpdirent.cc:139-142 | only the media attribute changes |
| Dirent.PlpDrive.SetUID | lib/plpdirent.cc:144-147 | only the UID changes |
| Dirent.PlpDrive.SetSize | lib/plpdirent.cc:149-152 | only the size changes; it is below 2^64 and its halves are the two arguments |
| Dirent.PlpDrive.SetSpace | lib/plpdirent.cc:154-157 | the same for the free space |
| Dirent.PlpDrive.SetName | lib/plpdirent.cc:159-164 | only the drive letter and the volume name change |
| Dirent.PlpDrive.GetMediaTypeName | lib/plpdirent.cc:183-186 | the name of the media type, which no other type shares |
| Dirent.PlpDrive.GetDriveAttributeText | lib/plpdirent.cc:200-215 | the comma-joined labels of the set drive attribute bits |
| Dirent.PlpDrive.GetMediaAttributeText | lib/plpdirent.cc:222-234 | the comma-joined labels of the set media attribute bits |
| Dirent.AppendLabels | lib/plpdirent.cc:193-234 | appending the label of each set bit in order gives `Describe` |

## Left out

- I/O and display are not modelled. This covers the printed messages, the
  `help` text, `pwd`, `ls`/`dir`, `devs`, `dircnt`, `machinfo`, `ps`,
  readline and history, and tab completion. Their commands are still told
  apart by `Dispatch.Route`.
- Single link calls are modelled only as the request they make
  (`Dispatch.Reply`). This covers `ren`, `touch`, `test`, `gattr`,
  `gtime`, `del`/`rm` and `mkdir`/`rmdir`. The device's answer and error
  printing are not modelled.
- `runrestore`, `killsave`, `x` and `y` are not modelled beyond their
  selection by `Dispatch.Route`; `Dispatch.Reply` hands on nothing for
  them. `x` and `y` are single configuration calls without arguments.
  `runrestore` and `killsave` loop over a host file and the device's
  process list (`plpftp/ftp.cc:831-871`); host file I/O is outside this
  model.
- Transfer rates (floating point), `strftime` and the `PsiTime` conversions
  are not modelled. A `PlpDirent`'s time is kept as the pair of words it
  was built from.
- Interrupts during a command are not modelled. `Session.Interrupt` models
  the handler, but `Dispatch.Loop` assumes no interrupt arrives, so its
  `continueRunning` exit is not reached. The copy calls' progress callback
  is modelled by `Session.CheckAbort` only.
- Session.Session.Mget, Session.Session.Mput: a batch whose question meets
  the end of input is reported as stalled. As written, the question loop
  would go on forever.
- Session.Session.Mget: the lower-case conversion of the local name
  (`plpftp/ftp.cc:597-600`) sits in a branch no answer reaches, since only
  `y` and `n` leave the question loop. `Session.BatchAnswer` shows this, so
  the conversion is omitted.
- Processes.Kill: `Processes.ScanInt` reads a number of any size. As
  written, `%d` into a C `int` (`plpftp/ftp.cc:878`, `883`) cannot hold a
  number outside the 32-bit range, so such an argument can select another
  pid than the one written.
- Processes.Kill: an argument that `%d` cannot read is modelled as selecting
  no process. As written, the pid variable is left uninitialised.
- Glob.Wildmat: inputs where the C code reads past a terminator are
  modelled as "no match". These are a `*` tried past the end of the name, a
  class at the end of the name, a trailing `\`, an unterminated class, and
  a range whose upper end is the terminator. Those are also the patterns
  that do not parse (`Glob.MalformedSelectsNothing`).
- Paths.CdResolve: an empty target gives no result. As written, the C code
  reads one character past the terminator and leaves `dest` unwritten.
- Dirent.PlpDrive.GetDriveAttributeText, Dirent.PlpDrive.GetMediaAttributeText:
  the six (four) successive bit tests are modelled as one loop over the
  label table.
- Sattr.ParseFlags: the masks are sets of attributes. Their numeric value
  is `Sattr.MaskValue`, and the two are proved equivalent.
- Dirent.PlpDrive.GetMediaTypeName: it requires a media type below 9. As
  written, a larger value indexes past the name table.
- Fixed-size C buffers are not modelled: names, lines and answers are
  unbounded sequences. The model does not capture an overflow of the
  256-character `f1`/`f2` filled by `strcpy`/`strcat` in the handlers, or of
  the 1024-character line buffer. It also does not capture an answer line
  of more than 99 characters read into `temp[100]` by `cin.getline`, which
  sets the stream's failbit so that the question loop spins.
- Signed characters are not modelled. Character comparisons in classes and
  ranges use code-point order, which is also what an unsigned `char`
  gives.
- Dispatch.Route: it uses the corrected `sattr` guard of three words. The
  guard as written, `argc == 2` at `plpftp/ftp.cc:376`, is modelled by
  `Session.SattrAsWritten` and listed under Findings.
- Session.SattrAsWritten: slot 2 is given as a word, not as a pointer into
  the line buffer; `Session.SattrReadsStaleSlot` computes that word from
  the buffer for two concrete histories. In the interactive loop the slot
  is never null: before any line with three words it is an uninitialised
  pointer, which the model does not represent (None stands for a slot with
  no text).
- Dispatch.Next, Dispatch.Loop: they read commands with the corrected read
  loop, which skips lines without a word (`Session.ReadCommand`). As
  written, `plpftp/ftp.cc:1059` accepts any non-empty line
  (`Session.ReadAsWritten`). They also keep at most ten words of a line
  (`Dispatch.CommandWords`), where the source has no bound
  (`plpftp/ftp.cc:1097-1101`). Both are listed under Findings.
- Dispatch.Loop: the host's working directory is a fixed field of
  `Dispatch.Host`. A successful `lcd` changes the process's working
  directory, which a later bare `lcd` returns to; the loop does not track
  that change.
- Dispatch.Loop: models the interactive loop only. The one-shot mode runs
  one command from the program's arguments, and only its `argv` set-up is
  modelled (`Session.OnceArgs`).
- `getUnixDir`, `unixDirExists`, the `rpcs` owner-info query at start-up,
  and the `PlpDirent` stream output operator are not modelled. They carry
  no state of the session.

## Findings

| source | as written | input that shows it | evidently intended | confidence | as-written member | corrected member |
|---|---|---|---|---|---|---|
| lib/plpdirent.cc:74-79 | `getUID(idx)` admits indices below 4 and hands index 3 to the UID index operator, whose assertion (lines 34-38) allows only 0 to 2, so the program aborts | `getUID(3)` | indices 0 to 2 give a word, any other gives 0 | not executed | Dirent.GetUIDThreeAborts | Dirent.GetUID |
| lib/plpdirent.cc:126-127 | the `PlpDrive` copy constructor has an empty body, so no field is copied | copying any drive with a name | a copy equal to the original | not executed | Dirent.CopyLosesFields | Dirent.PlpDrive.Copy |
| plpftp/ftp.cc:376-380 | the `sattr` guard asks for `argc == 2` but the file is read from `argv[2]`, a slot this command did not fill, which points at the old third word's offset in the reused line buffer | `sattr +r` after `ren a.txt old.txt` sets the flags of `old.txt` | `argc == 3` | not executed | Session.SattrReadsStaleSlot | Session.SattrCommand |
| plpftp/ftp.cc:1097-1101 | the tokenizer stores every word start into the ten-entry `argv` (declared at line 196) without a bound | a line of eleven words | at most ten words kept | not executed | Tokenizer.ElevenWordsOverflow | Tokenizer.GetCommandCapped |
| plpftp/ftp.cc:1059-1101 | the read loop accepts any non-empty line, so a line of blanks gives `argc == 0` and the dispatcher reads a stale `argv[0]` | a line holding one space | lines without a word are skipped | not executed | Session.BlankLineReachesDispatch | Session.ReadCommand |
| plpftp/ftp.cc:205-210 | one-shot mode sets `argc` to the full argument count including the program name, so the last slot is the terminating null pointer | `plpftp get a.txt` | `argc` counts the words after the program name | not executed | Session.OnceArgsLastSlotIsNull | Session.OnceArgs |
