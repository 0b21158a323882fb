# Personal utility scripts, modelled in Dafny

This project models the decision logic inside a collection of small Python command-line
scripts. Each script becomes one Dafny module:

- a majordomo approver that reads Apple Mail exports, recognises majordomo requests and queues
  the commands that answer them (`Majordomo`, `AppleMail`, `MajordomoRequest`);
- a versioned-file archiver (`StashOld`);
- a bulk-mail template converter (`BulkMail`);
- a VMware backup loop (`VmBackup`);
- an iTunes playlist copier (`CopyPlaylist`);
- a mailed-photo saver with its index rewrite (`ParsePhoto`);
- two wireless-network helpers (`NetworkFix`, `NetworkWatcher`);
- a VirtualBox launcher (`VBoxAddVm`);
- a run-on-every-VM tool (`VmDo`);
- a password generator (`GenPass`);
- an rsync backup (`Backup`);
- a duplicate-file finder (`DuplicateFiles`);
- a Tor Browser Bundle installer (`TbbInstall`);
- an fvwm desk-label generator (`FvwmDesk`).

Shared modules model the parts of Python the scripts rely on:

- `Wrappers`: Option and Result, where a Result error names the exception the script would raise;
- `Strings`: `strip`, `split`, `join`, `lower`, `replace` and decimal numbers;
- `Paths`: `posixpath` functions such as `join`, `basename`, `dirname`, `splitext`, `normpath`, `abspath` and `expanduser`;
- `TextFile`: `readlines`;
- `ConfigParser`: option lookup in Python 2's ConfigParser and SafeConfigParser (`get`, `items`, DEFAULT inheritance, `%` interpolation);
- `Regex`: the fragment of the `re` backtracking engine that the majordomo patterns use.

The world outside a script arrives as explicit inputs:

- subprocess exit statuses and output;
- the set of paths that exist and file contents;
- configuration files, as the option lines of each section;
- random picks and hashes.

Code that loops or mutates in the script is written as Dafny methods with loop invariants. These
methods are proved against reference functions, and lemmas state what the scripts promise:
round trips, iff-characterisations, orderings and preserved invariants. Where a script does not
do what it evidently intends, the model keeps both versions. The behaviour as written is proved
with a lemma that shows the discrepancy, and the intended behaviour is proved separately (see
"## Findings").

## Model

| member | source | states |
|---|---|---|
| Majordomo.ListAddrParts | utils/majordomo-approver.py:71-82 | a list address splits into name and domain exactly when it holds one '@'; then it is name + "@" + domain, and the majordomo address is "majordomo@" + domain |
| Majordomo.ListAddrRoundTrip | utils/majordomo-approver.py:71-82 | joining an '@'-free name and domain with '@' and asking for the list name, domain and majordomo address gives back the name, the domain and "majordomo@" + domain |
| Majordomo.Get | utils/majordomo-approver.py:41-54 | a value that `get` returns is the caller's default or what a SafeConfigParser `get` of that option gives for some section |
| Majordomo.GetPrecedence | utils/majordomo-approver.py:41-54 | `get` answers from the list's majordomo-address section if a `get` there succeeds, else from the "default" section, else with the caller's default |
| Majordomo.ListPassword | utils/majordomo-approver.py:56-69 | the password lookup fails exactly when the list address is malformed (the address is computed outside the `try`) |
| Majordomo.ListPasswordChoice | utils/majordomo-approver.py:56-69 | a `get` of the list's own name in its majordomo section wins over a `get` of that section's "default" option; the password is None exactly when both raise |
| Majordomo.ListPasswordAnyCase | utils/majordomo-approver.py:56-69 | a password line for the list is found whatever the case it is written in, and a password under DEFAULT applies to a list whose section sets none |
| Majordomo.AsList | utils/majordomo-approver.py:130-132 | a single address counts as a one-element list, a list as itself |
| Majordomo.MajordomoList.constructor | utils/majordomo-approver.py:97-102 | a new list object has no queued commands and no body |
| Majordomo.NewList | utils/majordomo-approver.py:97-106 | building a list object fails exactly when the address is malformed or `getListPassword` gives None; otherwise it holds the password `getListPassword` gives and an empty queue |
| Majordomo.MajordomoList.AddCmd | utils/majordomo-approver.py:144-145 | appends the command to the queue and changes nothing else |
| Majordomo.MajordomoList.Approve | utils/majordomo-approver.py:136-142 | appends exactly one "approve <password> <cmd> <listAddr>[ <addr>]" command |
| Majordomo.MajordomoList.ProcessAddresses | utils/majordomo-approver.py:129-134 | appends one approve command per address, in the order given, and keeps the earlier queue |
| Majordomo.MajordomoList.Subscribe | utils/majordomo-approver.py:108-109 | one approved "subscribe" per address, in order |
| Majordomo.MajordomoList.Unsubscribe | utils/majordomo-approver.py:111-112 | one approved "unsubscribe" per address, in order |
| Majordomo.MajordomoList.Who | utils/majordomo-approver.py:114-115 | appends one approve command for "who" without an address |
| Majordomo.MajordomoList.Configure | utils/majordomo-approver.py:117-120 | appends "config <listAddr> <password>", the order that differs from approve |
| Majordomo.MajordomoList.NewConfig | utils/majordomo-approver.py:122-127 | the body becomes the file's contents + "\nEOF\n" and "newconfig <listAddr> <password>" is queued |
| Majordomo.MajordomoList.Execute | utils/majordomo-approver.py:147-165 | the mail text is every queued command followed by "\n", then the body if one is set, else "\nend\n"; it goes to "majordomo@" + domain with the subject, cc and from the configuration gives |
| Majordomo.CommandLinesSplit | utils/majordomo-approver.py:149-151 | splitting the assembled command text at line breaks gives back the queued commands, in order |
| Majordomo.ApproveCommandWords | utils/majordomo-approver.py:136-142 | the words of an approve command are "approve", the password, the command, the list address and the address, when each is one word |
| AppleMail.Translate | utils/majordomo-approver.py:187-193 | a translated line holds no NUL and no carriage return |
| AppleMail.ReadLines | utils/majordomo-approver.py:204-210 | the first loop builds the list of every line read, translated and split at line feeds, until a line translates to "" |
| AppleMail.LinesReadMacJoin | utils/majordomo-approver.py:187-210 | a file of plain lines joined by carriage returns is read as exactly those lines |
| AppleMail.MatchHeader | utils/majordomo-approver.py:199 | a match names the first of DATE, SENDER, SUBJECT, RECIPIENT that starts the line followed by ": ", with the rest of the line as value; no match means none of them starts the line (also lines 230-233) |
| AppleMail.FindStart | utils/majordomo-approver.py:212-216 | pops lines up to and including the first delimiter line |
| AppleMail.SkipBlank | utils/majordomo-approver.py:223-225 | what is left is no longer and does not start with a blank line |
| AppleMail.SkipBlankLines | utils/majordomo-approver.py:223-225 | the blank-line loop leaves the lines `SkipBlank` describes (also lines 243-245) |
| AppleMail.ReadHeaders | utils/majordomo-approver.py:227-241 | the header loop gives the header dictionary and the lines after the first non-header line, which is consumed |
| AppleMail.ReadBody | utils/majordomo-approver.py:247-253 | the body is each line stripped and ended by "\n" up to the next delimiter, which is consumed and not part of the body |
| AppleMail.ReadMessage | utils/majordomo-approver.py:219-253 | one pass of the message loop reads one message and consumes at least one line |
| AppleMail.ReadMessages | utils/majordomo-approver.py:218-253 | the message loop reads the messages the line list holds, in order |
| AppleMail.ReadAppleMailMsg | utils/majordomo-approver.py:184-255 | the reader returns the messages of the lines after the first delimiter |
| AppleMail.MessageKeys | utils/majordomo-approver.py:227-248 | every message has a "body", and its other keys are among "from", "to", "date" and "subject" |
| AppleMail.HeaderKeys | utils/majordomo-approver.py:231-239 | SENDER is stored as "from", RECIPIENT as "to", DATE and SUBJECT lower-cased, and nothing else |
| AppleMail.MessagesCount | utils/majordomo-approver.py:219-221 | there are no more messages than lines |
| AppleMail.MatchHeaderLine | utils/majordomo-approver.py:199 | a written "NAME: value" line is matched as that header with that value (also lines 230-233) |
| AppleMail.HeadersEnd | utils/majordomo-approver.py:240-241 | the empty line after the headers ends the header block and is consumed |
| AppleMail.HeadersRender | utils/majordomo-approver.py:227-241 | header lines followed by a separating line give the dictionary of those headers, later ones overwriting earlier ones |
| AppleMail.BodyRender | utils/majordomo-approver.py:247-253 | body lines followed by a delimiter give their stripped text, each line ended by "\n", and the lines after the delimiter |
| AppleMail.ParseOneRender | utils/majordomo-approver.py:219-253 | a written well-formed message is read back as its dictionary, and reading goes on after its delimiter |
| AppleMail.MessagesRender | utils/majordomo-approver.py:218-253 | written well-formed messages are read back as their dictionaries, in order |
| AppleMail.ReadAppleMailRoundTrip | utils/majordomo-approver.py:184-255 | an export of well-formed messages with carriage-return line ends is read back as exactly those messages' dictionaries |
| MajordomoRequest.ApproveGroups | utils/majordomo-approver.py:279-292 | an approve match yields an action that is subscribe or unsubscribe, a one-word list name and a non-empty one-line address |
| MajordomoRequest.ConfirmGroups | utils/majordomo-approver.py:296-312 | a confirm match yields a one-word code, an action, a one-word list name and a one-line rest |
| MajordomoRequest.BounceGroups | utils/majordomo-approver.py:316-325 | a bounce match yields a one-word list path and a one-word address |
| MajordomoRequest.SearchIff | utils/majordomo-approver.py:286 | `search` finds something exactly when the pattern can match somewhere in the body (also lines 305, 319) |
| MajordomoRequest.ParseRequestShape | utils/majordomo-approver.py:259-328 | a recognised request is "approve" or "confirm", only a confirmation has a code, the action is subscribe or unsubscribe and the list name is one word |
| MajordomoRequest.ParseRequestPriority | utils/majordomo-approver.py:286-328 | approve wins over confirm and confirm over bounce; a bounce becomes an approved unsubscribe; None exactly when no pattern occurs |
| MajordomoRequest.ApproveRoundTrip | utils/majordomo-approver.py:276-293 | "approve PASSWORD <action> <list> <addr>" is recognised as exactly that approval request |
| Regex.ClassRun | utils/majordomo-approver.py:274-284 | the greedy run of a character class ends at the first character outside the class |
| Regex.SearchFrom | utils/majordomo-approver.py:286 | a result is a match at the reported position and there is no match at any earlier one; no result means no match at any position |
| Regex.Search | utils/majordomo-approver.py:286-293 | every group of a found match holds text its element can match |
| Regex.MatchAtSound | utils/majordomo-approver.py:279-286 | the groups the backtracking engine returns come from a real match of the pattern |
| Regex.MatchAtComplete | utils/majordomo-approver.py:279-286 | if the pattern can match at a position, the engine finds a match there |
| Regex.MatchAtIff | utils/majordomo-approver.py:279-286 | the engine matches at a position exactly when the pattern can match there |
| Regex.SearchLeftmost | utils/majordomo-approver.py:286 | `search` reports a real match at the leftmost position where the pattern can match, and none exactly when it can match nowhere (also lines 305, 319) |
| Regex.MatchesGroupsFit | utils/majordomo-approver.py:279-284 | each group of a match holds text of that group's kind |
| AppleMail.ParseOne | utils/majordomo-approver.py:219-253 | reading one message always consumes at least one line, so the message loop ends |
| AppleMail.KeyOfHeader | utils/majordomo-approver.py:231-239 | every recognised header is stored under "from", "to", "date" or "subject" |
| StashOld.DigitRun | utils/stash-old.py:22 | the `\d+` run at the start of a text: all digits, and stopped by a non-digit or the end |
| StashOld.LineStart | utils/stash-old.py:22 | the match of `.*?` starts at the beginning of the name or right after its last newline before the '-' |
| StashOld.MatchTailSound | utils/stash-old.py:22 | the tail groups are a non-empty digit run and an optional `\.\w+` extension that spell the text after the '-', up to one trailing newline |
| StashOld.MatchTailComplete | utils/stash-old.py:22 | digits and an extension of the right shapes are found again in their text |
| StashOld.MatchVersionSound | utils/stash-old.py:22 | whatever the search finds decomposes the name as prefix ending in '-', digits, optional extension and at most one newline (also lines 33, 57) |
| StashOld.MatchVersionComplete | utils/stash-old.py:22 | every such decomposition is the one the search finds, so the match is unique (also lines 33, 57) |
| StashOld.MatchVersionIff | utils/stash-old.py:22 | the search succeeds with given groups exactly when the name decomposes around them (also lines 33, 57) |
| StashOld.NoDashNoMatch | utils/stash-old.py:22 | a name without '-' never matches |
| StashOld.RegexExample | utils/stash-old.py:133-139 | "file-1.txt" splits into "file-", "1" and ".txt" |
| StashOld.VersionOfRoot | utils/stash-old.py:26-36 | the version is read from the name with its extension removed |
| StashOld.GetVersionOf | utils/stash-old.py:26-36 | a name "<stem>-<n>" or "<stem>-<n>.<ext>" has version n |
| StashOld.GetVersionNone | utils/stash-old.py:26-36 | a name whose extension-less part has no '-' has no version |
| StashOld.GetVersionExample7 | utils/stash-old.py:127-129 | "filename-7.ext" has version 7 |
| StashOld.GetVersionExampleNone | utils/stash-old.py:130 | "filename.ext" has no version |
| StashOld.GetVersionExample4 | utils/stash-old.py:131 | "filename-4" has version 4 |
| StashOld.Members | utils/stash-old.py:51-63 | a group holds no more names than the input |
| StashOld.MembersIff | utils/stash-old.py:51-63 | a name is in the group of prefix p exactly when it is an input name whose prefix is p |
| StashOld.GroupFiles | utils/stash-old.py:51-63 | the dictionary's keys are exactly the prefixes that occur, and each maps to its names in input order; unversioned names are skipped |
| StashOld.MembersOfSeven | utils/stash-old.py:141-150 | seven names keyed like the test's input fall into a two-name group and a three-name group, and other keys get nothing |
| StashOld.GroupFilesExample | utils/stash-old.py:141-150 | the test's names give a "file-" group of 2, a "test-" group of 3 and no "something" group |
| StashOld.InsertPerm | utils/stash-old.py:42 | inserting into the sorted list adds exactly that name |
| StashOld.InsertSorted | utils/stash-old.py:42 | inserting keeps descending order |
| StashOld.SortDescPerm | utils/stash-old.py:42 | the sort is a permutation of the list |
| StashOld.SortDescSorted | utils/stash-old.py:42 | the sort is in descending version order, None below every number |
| StashOld.SortInPlace | utils/stash-old.py:42 | the caller's list is sorted in place |
| StashOld.MoveBelow | utils/stash-old.py:44-47 | the loop renames the files below the top version, in list order |
| StashOld.ProcessFiles | utils/stash-old.py:40-47 | sorts the caller's list in place, fails on an empty list, and otherwise renames the files below the first (highest) version |
| StashOld.RenamesIff | utils/stash-old.py:44-47 | a rename is made exactly for a listed file whose version is below the top one, into join(old_path, file) |
| StashOld.ProcessFilesSelection | utils/stash-old.py:42-47 | after sorting, the first version is the group's highest, and a file is moved exactly when its version is strictly below it |
| StashOld.TopVersionStays | utils/stash-old.py:43-45 | a file at the highest version is never moved, so ties at the top all stay |
| BulkMail.IdentRun | utils/bulk-mail.py:36 | the greedy `[_A-Za-z0-9]*` run stops at the first non-identifier character or the end |
| BulkMail.IdentRunChars | utils/bulk-mail.py:36 | every character of the run is an identifier character |
| BulkMail.Placeholder | utils/bulk-mail.py:34-36 | a placeholder at the front is '[' , an identifier that starts with a letter or '_', and ']' |
| BulkMail.PlaceholderName | utils/bulk-mail.py:36 | the name inside a found placeholder is made of identifier characters |
| BulkMail.PlaceholderOfDoublePercent | utils/bulk-mail.py:37 | doubling '%' neither creates nor destroys a placeholder at the front of the text |
| BulkMail.ConvertPlaceholderStep | utils/bulk-mail.py:36-37 | a placeholder at the front of the template becomes "%(name)s" and the rest is converted after it |
| BulkMail.ConvertPercentStep | utils/bulk-mail.py:37 | a '%' at the front of the template becomes "%%" |
| BulkMail.ConvertPlainStep | utils/bulk-mail.py:37 | any other character is copied unchanged |
| BulkMail.FormatDirectiveStep | utils/bulk-mail.py:127 | "%(key)s" is filled with vars[key], or raises KeyError naming key |
| BulkMail.FormatPercentStep | utils/bulk-mail.py:127 | "%%" gives back one '%' |
| BulkMail.FormatConvert | utils/bulk-mail.py:33-37 | round trip: formatting the converted template gives the template with each [name] replaced by vars[name] and every '%' kept; a missing name is reported as the same leftmost name (also line 127) |
| BulkMail.ExpandNeverBadFormat | utils/bulk-mail.py:126-130 | formatting a converted template never fails with a bad directive, only with KeyError |
| BulkMail.ExpandNoBrackets | utils/bulk-mail.py:127 | a template without '[' is sent exactly as written |
| BulkMail.ConvertKeepsDigitStart | utils/bulk-mail.py:36 | "[1x]" is kept as it is: an identifier cannot start with a digit |
| BulkMail.ConvertKeepsSpaced | utils/bulk-mail.py:36 | "[a b]" is kept as it is: a space is not an identifier character |
| BulkMail.ConvertNoPlaceholder | utils/bulk-mail.py:37 | text with neither '%' nor a placeholder is left unchanged |
| BulkMail.ConvertIdentifier | utils/bulk-mail.py:36-37 | "[name]" becomes "%(name)s" for every identifier name |
| BulkMail.ConvertPercentExample | utils/bulk-mail.py:37 | a literal '%' is doubled: "5%" becomes "5%%" |
| BulkMail.LineVars | utils/bulk-mail.py:116-121 | a line's dict has exactly the keys name, department and email, holding its first three fields stripped |
| BulkMail.Outcomes | utils/bulk-mail.py:110-137 | one outcome per line, the first being that line's outcome |
| BulkMail.OutcomesStep | utils/bulk-mail.py:110-137 | the outcomes of a line followed by more lines are that line's outcome, then the rest numbered one higher |
| BulkMail.HandleLine | utils/bulk-mail.py:116-137 | a line with fewer than three fields is malformed; otherwise the converted template is formatted with its fields, and an undefined name skips the line with an error |
| BulkMail.ProcessList | utils/bulk-mail.py:110-137 | the loop gives one outcome per line of the list, in order, numbered from 1 |
| VmBackup.VmNaming | vm/vm-backup.py:78-82 | a configuration file "<dir>/<name>.<ext>" names the VM "<name>", and its marker is "<dir>/vm-backup-last" |
| VmBackup.MarkerFileOf | vm/vm-backup.py:80-81 | the marker file sits next to the configuration file |
| VmBackup.StripExtOf | vm/vm-backup.py:82 | `splitext` drops exactly the extension of "<name>.<ext>" |
| VmBackup.CmdOutput | vm/vm-backup.py:48-67 | a nonzero status is an error; otherwise there is one line per output line, each the line with its trailing whitespace removed |
| VmBackup.ParseState | vm/vm-backup.py:84-91 | a parsed state is the non-empty run of non-space characters right after "getstate() = " at the start of the first output line |
| VmBackup.ParseStateOf | vm/vm-backup.py:84-91 | the state is read back from a well-formed first line |
| VmBackup.ParseStateRejects | vm/vm-backup.py:88-90 | a first line that does not start with "getstate() = " raises |
| VmBackup.MaxTimeIsMax | vm/vm-backup.py:129 | `max` exists exactly for a non-empty list, is one of its elements and bounds them all |
| VmBackup.FilterMembers | vm/vm-backup.py:123-127 | a comprehension keeps exactly the entries its test accepts |
| VmBackup.LastBackupFinds | vm/vm-backup.py:105-111 | there is a last backup time exactly when the marker is listed, and it is the marker's time |
| VmBackup.AsWrittenNeverSkips | vm/vm-backup.py:118-129 | as written, the marker's path never equals the bare name "vm-backup-last", so its time stays in the maximum and a backed-up VM is never skipped (also lines 248-255) |
| VmBackup.NoVmSkippedAsWritten | vm/vm-backup.py:242-255 | as written, no VM is skipped, whatever its files' times |
| VmBackup.SkipIff | vm/vm-backup.py:118-129 | with the marker left out, a VM is skipped exactly when it was backed up and every entry other than logs and the marker is older than that backup (also lines 248-255) |
| VmBackup.SkipReachable | vm/vm-backup.py:118-129 | with the marker left out, a disk written before the marker is skipped (also lines 248-255) |
| VmBackup.Backup | vm/vm-backup.py:132-167 | a VM is suspended exactly when its state is "on", and restarted exactly when it was suspended, after tar whether tar succeeded or not; success needs tar to return 0 and the restart to work |
| VmBackup.TarCommand | vm/vm-backup.py:149-156 | tar gets "cfvz", the tarball, then every file of the VM's directory by its full path |
| VmBackup.AttemptedMembers | vm/vm-backup.py:242-266 | a VM is among those tarred (or those failed) exactly when it was listed, not skipped, and its backup succeeded (or failed) |
| VmBackup.AttemptedAppend | vm/vm-backup.py:242-266 | the VMs attempted over two stretches of the list are those of each, in order |
| VmBackup.CrashIndexCrashes | vm/vm-backup.py:129 | the loop stops at a VM whose modification time cannot be computed (an empty listing) (also line 246) |
| VmBackup.CrashIndexFirst | vm/vm-backup.py:129 | no VM before that point fails this way (also line 246) |
| VmBackup.Tarfiles | vm/vm-backup.py:245 | each tarball is "<workingDir>/<name>.tar.gz" (also line 265) |
| VmBackup.ScpRunsStep | vm/vm-backup.py:273-286 | after each new tarball scp runs once more with every tarball so far, and never without a destination |
| VmBackup.BackupOne | vm/vm-backup.py:242-286 | one turn: a skipped VM changes nothing, a failed backup has its tarball removed when the failed tar left one, a successful one adds the VM and its tarball, registers the tarball's removal at exit when it exists and the working directory is temporary, and runs scp |
| VmBackup.ProgressStep | vm/vm-backup.py:242-286 | each turn keeps the loop's record: tarred VMs, their tarballs, removed tarballs and scp runs all match the VMs seen so far |
| VmBackup.RunBackups | vm/vm-backup.py:236-299 | the loop tars exactly the non-skipped VMs whose backup succeeds, removes the tarballs that failed ones left behind, registers for exit the removal of every tarred VM's tarball that exists when the working directory is temporary, and marks exactly the tarred VMs only when the loop reaches its end |
| VmBackup.MaxBounds | vm/vm-backup.py:129 | every listed entry's time is at most the maximum |
| VmBackup.SkippedWhen | vm/vm-backup.py:248-255 | with the marker left out, a VM is skipped exactly when it has a last backup time later than its modification time |
| VmBackup.CrashIndex | vm/vm-backup.py:129 | the loop stops at most after the last VM (also line 246) |
| VmBackup.TurnSkipped | vm/vm-backup.py:248-255 | a skipped VM changes nothing |
| VmBackup.TurnFailed | vm/vm-backup.py:257-263 | a failed backup only has its tarball removed, and only when the tarball exists |
| VmBackup.LeftBehind | vm/vm-backup.py:261-262 | of the VMs given, exactly those with a file at the tarball's path, in order: the failed VMs whose tarball is removed, and the tarred VMs whose removal is registered (also lines 270-271) |
| VmBackup.TurnTarred | vm/vm-backup.py:264-286 | a successful backup adds the VM and its tarball, and runs scp with every tarball so far when there is a destination |
| VmBackup.SetUp | vm/vm-backup.py:218-231 | a usage error (status 2) exactly when neither `-d` nor `-s` is given, status 1 when `-d` names a missing directory; otherwise the tarballs stay in `-d`'s directory with nothing registered, or go to `mkdtemp`'s directory with its `rmdir` registered and the tarballs marked for removal |
| VmBackup.ExitOrder | vm/vm-backup.py:230 | `atexit` runs the registered calls last registered first (also line 271) |
| VmBackup.BackUpVms | vm/vm-backup.py:242-286 | the loop stops at the first VM whose modification time cannot be computed, having kept the record of the VMs before it |
| VmBackup.ExitCleanups | vm/vm-backup.py:228-231 | at exit nothing is removed when `-d` is given; with a temporary directory the registered tarballs are removed, last made first, and then the directory (also lines 270-271) |
| VmBackup.TemporaryExit | vm/vm-backup.py:270-271 | with a temporary directory, every tarred VM's tarball that exists is removed at exit, before the directory's `rmdir` (also line 230) |
| CopyPlaylist.SongPathOf | utils/copy-playlist.py:66-77 | a line written as 27 tab-separated fields is read back as the song whose source is built from its last field |
| CopyPlaylist.Songs | utils/copy-playlist.py:66-77 | there are no more songs than lines; lines without 27 fields give none |
| CopyPlaylist.SongsStep | utils/copy-playlist.py:66-77 | reading one more line adds its song, if it has one |
| CopyPlaylist.CopiesSafe | utils/copy-playlist.py:80-88 | copying never overwrites: each copy goes to a target that did not exist, no target is written twice, each source existed, and the file system gains exactly the targets |
| CopyPlaylist.CopiesCover | utils/copy-playlist.py:80-88 | every song whose source existed ends up with a file at its target |
| CopyPlaylist.CopiesGrow | utils/copy-playlist.py:80-88 | the file system only grows |
| CopyPlaylist.CopiesSource | utils/copy-playlist.py:80-88 | every copy is of one of the songs |
| CopyPlaylist.Basenames | utils/copy-playlist.py:78-79 | every parsed song's basename is recorded as in the playlist, in order |
| CopyPlaylist.CopySong | utils/copy-playlist.py:66-88 | one turn records the basename before the existence checks, then copies the song unless its target exists or its source is missing |
| CopyPlaylist.CopySongs | utils/copy-playlist.py:63-88 | the loop skips the first line, records every song's basename and makes exactly the copies described above |
| CopyPlaylist.UnlistedMembers | utils/copy-playlist.py:91-93 | an entry is deleted exactly when it is listed in the target and not in the playlist |
| CopyPlaylist.DeleteUnlisted | utils/copy-playlist.py:89-97 | with --delete, exactly the unlisted entries are removed, in listing order; without it, nothing |
| CopyPlaylist.Run | utils/copy-playlist.py:58-98 | a target that is missing or not a directory is a usage error; otherwise the songs are copied and, with --delete, the unlisted entries removed |
| CopyPlaylist.CopiedKept | utils/copy-playlist.py:78-97 | a file copied in this run is never deleted by the same run |
| ParsePhoto.FileNameInjective | utils/parse_photo.py:53-56 | different file numbers give different names |
| ParsePhoto.SmallestFreeUnique | utils/parse_photo.py:51-59 | there is only one smallest free file number |
| ParsePhoto.NextFree | utils/parse_photo.py:51-59 | the chosen number is the smallest n >= 1 whose name does not exist yet |
| ParsePhoto.Jpegs | utils/parse_photo.py:46-49 | only image/jpeg parts are kept, in order |
| ParsePhoto.SaveJpeg | utils/parse_photo.py:46-62 | one turn writes a JPEG part under the next free name, which becomes the one the index refers to, and passes over any other part |
| ParsePhoto.SaveJpegs | utils/parse_photo.py:44-63 | every JPEG part is written under the smallest free number, given the directory and the pictures saved before it; the last name saved is remembered |
| ParsePhoto.SavedFresh | utils/parse_photo.py:51-62 | no saved picture overwrites a file of the directory, and no two pictures share a name |
| ParsePhoto.RewriteIndex | utils/parse_photo.py:70-78 | the copying loop gives the index with each marker line replaced by the picture's two lines and every other line copied in order |
| ParsePhoto.RewriteKeepsMarks | utils/parse_photo.py:74-76 | the rewritten index has as many marker lines as before and one line more per marker, so a later run inserts above this entry again |
| ParsePhoto.RewriteNoMark | utils/parse_photo.py:70-78 | an index without a marker line comes out unchanged |
| ParsePhoto.Run | utils/parse_photo.py:38-81 | a non-multipart message writes nothing; with no JPEG part the run fails; otherwise the index is rewritten for the last saved picture |
| ParsePhoto.SavedJpeg | utils/parse_photo.py:46-62 | a JPEG part is saved under the smallest free number, which is recorded with its name and contents |
| ParsePhoto.MarkCountAppend | utils/parse_photo.py:74-76 | the marker lines of two stretches of the index add up |
| NetworkFix.FirstDefault | utils/network-fix.py:83-88 | the index found is of a line starting with "default", and no earlier line starts with it; none found means no line does |
| NetworkFix.DefaultRoute | utils/network-fix.py:78-92 | None exactly when no line starts with "default"; otherwise the second whitespace field of the first such line, or an IndexError when it has fewer than two fields |
| NetworkFix.RouteLineWords | utils/network-fix.py:89-92 | a route table line "default <gateway> ..." starts with "default" and has the gateway as its second field |
| NetworkFix.DefaultRouteOf | utils/network-fix.py:78-92 | the first "default" line of the route table gives its gateway |
| NetworkFix.FirstDefaultIs | utils/network-fix.py:83-85 | the search stops at the first line starting with "default" |
| NetworkFix.WaitForDefaultRoute | utils/network-fix.py:94-109 | the route is queried between 1 and maxTries times; True exactly when the last query saw a route, False only after maxTries empty queries |
| NetworkFix.CheckAirport | utils/network-fix.py:117-129 | False exactly when the first line ends with "Off", True exactly when it ends with "On" and not "Off", an error otherwise |
| NetworkFix.CheckAirportOfOutput | utils/network-fix.py:122-127 | "AirPort: ... On" reads as on and "AirPort: ... Off" as off |
| NetworkFix.CheckAndFixNetwork | utils/network-fix.py:29-76 | returns False exactly when the airport was on and the default router answered; True means something was repaired; the interface is bounced exactly when the first check failed, and then only a reachable new router gives success |
| NetworkFix.BounceAndRecheck | utils/network-fix.py:52-76 | bounces the interface exactly once, first, and succeeds only when the router found after the bounce answers the ping; otherwise it raises |
| NetworkFix.ExitStatus | utils/network-fix.py:175-178 | `main` returns 1 exactly when nothing was fixed, 0 when something was, and passes errors on |
| NetworkFix.FailuresBounded | utils/network-fix.py:166-171 | the failures never exceed the runs |
| NetworkFix.Rate | utils/network-fix.py:172-173 | the printed rate is the integer percentage of failures, between 0 and 100 |
| NetworkFix.Continuous | utils/network-fix.py:164-174 | every run is counted before it starts, each run that fixed something counts as a failure, failures stay at most the runs, and the first error ends the loop |
| NetworkWatcher.Step | utils/networkwatcher.py:97-106 | one line of `airport -I` fails exactly when it has no field, or is tagged "SSID:"/"BSSID:" without a value |
| NetworkWatcher.GetNetworkParams | utils/networkwatcher.py:80-108 | the loop returns the dictionary the line-by-line definition builds, or its first IndexError |
| NetworkWatcher.ParamsErrSticks | utils/networkwatcher.py:96-106 | after a failing line nothing further is read |
| NetworkWatcher.ParamsErr | utils/networkwatcher.py:96-106 | reading fails exactly when some line has no field or a tag without a value |
| NetworkWatcher.ParamsKeys | utils/networkwatcher.py:101-106 | only "ssid" and "bssid" are ever set |
| NetworkWatcher.ParamsSsid | utils/networkwatcher.py:101-103 | "ssid" is set exactly when some line is tagged "SSID:", and then holds the second field of the last such line |
| NetworkWatcher.ParamsSsidSet | utils/networkwatcher.py:101-103 | "ssid" is set exactly when some line is tagged "SSID:" |
| NetworkWatcher.ParamsSsidLast | utils/networkwatcher.py:101-103 | a set "ssid" comes from the last "SSID:" line: later lines overwrite earlier ones |
| NetworkWatcher.SsidTruncated | utils/networkwatcher.py:100-102 | an SSID containing a space keeps only its first word |
| NetworkWatcher.Sanitize | utils/networkwatcher.py:270-272 | same length, no space and no dot left, every space or dot becomes "_" and every other character is kept |
| NetworkWatcher.Act | utils/networkwatcher.py:228-277 | a KeyError exactly when no "ssid" was found; no command unless the SSID is non-empty and names a section; then the `cmd` a SafeConfigParser `get` finds (if it does not raise) followed by `lpoptions -d` with the sanitised printer (if any) |
| NetworkWatcher.CmdAsRead | utils/networkwatcher.py:253-258 | a `cmd` under DEFAULT is run for a network whose section sets none; "%%" in a `cmd` stands for '%'; a `cmd` with a lone '%' raises in `get` and is not run |
| VBoxAddVm.Argv | virtualbox/vbox-add-vm.py:38-39 | the command line is "VBoxManage", "-q" followed by the arguments unchanged |
| VBoxAddVm.VBoxManage | virtualbox/vbox-add-vm.py:36-43 | no error exactly when the return code is 0; otherwise a VBoxError carrying that code |
| VBoxAddVm.StateGroups | virtualbox/vbox-add-vm.py:88 | the state pattern captures one group, a run of word characters and spaces |
| VBoxAddVm.GetVMStateShape | virtualbox/vbox-add-vm.py:85-93 | "Unknown" without a match; otherwise only word characters and spaces, with no space at either end |
| VBoxAddVm.GetVMStateOf | virtualbox/vbox-add-vm.py:85-93 | the line "State: <state> (..." reads back as exactly `<state>` |
| VBoxAddVm.StateAfterLabel | virtualbox/vbox-add-vm.py:88 | after "State:", the spaces, the state name and "(" match, with the state name as the group |
| VBoxAddVm.WaitForVMShutdown | virtualbox/vbox-add-vm.py:95-104 | polls until the first "powered off" state and stops there; with no such state it is still waiting after every state |
| VBoxAddVm.VmName | virtualbox/vbox-add-vm.py:156 | the VM name is the basename of the settings file without its extension, so it contains no "/" |
| VBoxAddVm.AbsPaths | virtualbox/vbox-add-vm.py:170-171 | each disk is replaced by its absolute path, one for one and in order |
| VBoxAddVm.HddCallsAt | virtualbox/vbox-add-vm.py:170-186 | disk i is registered with `registerimage disk` and then mounted as drive a, b or d (the i-th letter) on the VM |
| VBoxAddVm.HddCleanupsAt | virtualbox/vbox-add-vm.py:177 | disk i leaves two cleanups: unregister it, then unmount its drive (also line 185) |
| VBoxAddVm.HddCleanupAt | virtualbox/vbox-add-vm.py:177 | the two cleanups of one disk, by position (also line 185) |
| VBoxAddVm.ReverseAt | virtualbox/vbox-add-vm.py:163 | cleanups run in reverse registration order (also lines 177, 185) |
| VBoxAddVm.CleanupsRunLifo | virtualbox/vbox-add-vm.py:163 | at exit every disk is unmounted just before it is unregistered, later disks first, and the VM is unregistered last (also lines 177, 185, 195) |
| VBoxAddVm.LifoAt | virtualbox/vbox-add-vm.py:163 | the exit order of one disk's two cleanups (also lines 177, 185, 195) |
| VBoxAddVm.AbandonedAt | virtualbox/vbox-add-vm.py:172-184 | a failing call while handling a disk leaves calls and cleanups that are prefixes of a full run, every earlier call having succeeded |
| VBoxAddVm.MountedStep | virtualbox/vbox-add-vm.py:170-186 | registering and mounting one more disk keeps the calls and cleanups those of the disks done so far |
| VBoxAddVm.RegisterFails | virtualbox/vbox-add-vm.py:172-176 | a failed `registerimage` ends `main` without registering a cleanup for that disk |
| VBoxAddVm.MountFails | virtualbox/vbox-add-vm.py:178-184 | a failed mount ends `main` with the disk's unregister cleanup registered but not its unmount |
| VBoxAddVm.MountOne | virtualbox/vbox-add-vm.py:170-186 | one turn of the disk loop: either all disks so far are registered and mounted, or the run is abandoned at the failing call; cleanups only grow |
| VBoxAddVm.MountDisks | virtualbox/vbox-add-vm.py:170-186 | after the loop either every disk is registered and mounted in order, or the run stopped at the first failing call |
| VBoxAddVm.StartAndWait | virtualbox/vbox-add-vm.py:188-197 | starts the VM after all disks; status 1 if `startvm` fails, 0 once the VM is seen powered off, otherwise still waiting |
| VBoxAddVm.Register | virtualbox/vbox-add-vm.py:158-197 | status 1 exactly when the last call failed or more than three disks were given; a failed `registervm` leaves no cleanup; no `-H` option raises TypeError; status 0 exactly when the VM was started and then powered off |
| VBoxAddVm.AbandonedRegistered | virtualbox/vbox-add-vm.py:172-184 | a run abandoned in the disk loop returns status 1 |
| VBoxAddVm.RunMain | virtualbox/vbox-add-vm.py:153-197 | a settings file that does not exist is a usage error (status 2) before any call; otherwise the settings file and disks are used by absolute path |
| VmDo.Defaults | utils/vm-do.py:24-29 | every machine starts with exactly the options "up", "os" and "sshCmd" |
| VmDo.ParseBool | utils/vm-do.py:35 | `getboolean` gives True exactly for 1/yes/true/on and False exactly for 0/no/false/off, in any case, and fails otherwise |
| VmDo.Convert | utils/vm-do.py:34-39 | a configured value keeps the type of its default: a boolean default is read with `getboolean` and fails when that fails, a string default takes the text as it is |
| VmDo.Options | utils/vm-do.py:30 | the options seen for a section are those of the section over those of DEFAULT, all lower-case (also lines 35-39) |
| VmDo.ConfiguredOptions | utils/vm-do.py:25-39 | after reading, exactly the three known options are set, each of its default's type; unset ones keep their default; "up" and "os" take the configured value; unknown options are ignored |
| VmDo.SshCmdNeverSet | utils/vm-do.py:28-39 | as written the ssh command is always "ssh", whatever the configuration says |
| VmDo.UpInAnyCase | utils/vm-do.py:30-35 | a line "Up = no" turns the machine off |
| VmDo.SshCmdConfigurable | utils/vm-do.py:28-39 | with names matched lower-case, an "sshcmd" line sets the ssh command and "up" and "os" read as before |
| VmDo.ReadNone | utils/vm-do.py:24-29 | before any option is read the options are the defaults |
| VmDo.ReadStep | utils/vm-do.py:34-39 | reading a known option converts it by its default's type |
| VmDo.ReadSkip | utils/vm-do.py:31-33 | an unknown option leaves the options unchanged |
| VmDo.ReadFails | utils/vm-do.py:35 | only an "up" value that is not a boolean makes reading fail |
| VmDo.VirtualMachine.constructor | utils/vm-do.py:18-20 | the name and the hostname are the section's name |
| VmDo.VirtualMachine.ReadOptions | utils/vm-do.py:23-39 | fails with ValueError exactly when "up" is not a boolean; otherwise the options are the defaults updated from the configuration; name and hostname are unchanged |
| VmDo.VirtualMachine.Describe | utils/vm-do.py:41-51 | the name and the hostname a machine reports are its own |
| VmDo.NewVirtualMachine | utils/vm-do.py:18-21 | a machine for a section, named after it with its options read, or the error reading them (also lines 117-118) |
| VmDo.SshArgv | utils/vm-do.py:59-62 | the ssh command, "-o", "BatchMode yes" and the hostname, followed by the command's arguments unchanged |
| VmDo.UpHostsMembers | utils/vm-do.py:82-83 | exactly the machines that are supposed to be up are visited (also lines 101-102) |
| VmDo.UpHostsPrefix | utils/vm-do.py:82-83 | the machines visited among the first ones come first |
| VmDo.Report | utils/vm-do.py:84-98 | what one machine's turn prints: "name: " unless `-H`, the command's output, the newline of the bare `print`, the name under `-c` (status 0) or `-C` (nonzero), and under `-e` (without `-C`) the line "Command failed on <name> (status = <status>)" before exiting with that status |
| VmDo.TurnLines | utils/vm-do.py:84-97 | read back line by line, a turn's text is the prefixed output, then the name when `-c`/`-C` report it, then the failure message when the run stops, and nothing after the last newline |
| VmDo.RunOne | utils/vm-do.py:83-98 | one machine: a machine that is down is passed over; otherwise its ssh line is run, its turn's text is printed, and a failure with `-e` (and not `-C`) stops with that status |
| VmDo.RunCmd | utils/vm-do.py:81-98 | runs the command on the up machines in order until the first that stops the run; the printed text is every turn's text in that order; exits with the stopping machine's status, or goes through all of them |
| VmDo.PrintedEndsWithFailure | utils/vm-do.py:95-98 | a run that stops ends its output with the line "Command failed on <name> (status = <status>)" of the machine it stops at |
| VmDo.GetOS | utils/vm-do.py:100-103 | one line "name: version" per up machine, in order, each from `cat /etc/fedora-release` over ssh |
| VmDo.ParseCommand | utils/vm-do.py:148-160 | a usage error exactly when the command is missing or is not "run" or "getOS"; otherwise that command with the remaining arguments |
| VmDo.FirstStopSkips | utils/vm-do.py:81-98 | machines that do not stop the run can be passed over when finding the first that does |
| VmDo.RunMain | utils/vm-do.py:148-164 | status 2 for a usage error, 0 for getOS, and for run the status of the first up machine that stops the run, or 0 when none does |
| GenPass.Span | utils/genpass.py:33 | the n consecutive characters from a code point on (how the letter and digit ranges are spelled) (also lines 97-98) |
| GenPass.Alphabet | utils/genpass.py:96-99 | each character set is non-empty |
| GenPass.LettersAndDigits | utils/genpass.py:33 | `string.letters` is exactly the ASCII letters and `string.digits` exactly the decimal digits (also line 97) |
| GenPass.AlphabetContents | utils/genpass.py:96-99 | "alphanum" holds exactly the letters and digits; "alphanumpunct" adds exactly the punctuation |
| GenPass.DeleteChars | utils/genpass.py:34-37 | `translate` with deleted characters keeps exactly the characters not deleted and never lengthens the string |
| GenPass.RandInt | utils/genpass.py:38 | `randint(a, b)` fails exactly when a > b and otherwise lies between a and b (also lines 51, 62) |
| GenPass.Choose | utils/genpass.py:40 | n choices give n items (none for n <= 0), each drawn from the items; choosing from an empty list fails (also lines 53, 64) |
| GenPass.OrDefault | utils/genpass.py:28-29 | an unset (zero) `--min` or `--max` takes the default, any other value is kept (also lines 49-50, 59-60) |
| GenPass.WordAlphabet | utils/genpass.py:30-37 | a password draws exactly from the chosen character set, without "0O1l" unless look-alikes are allowed |
| GenPass.PassWordShape | utils/genpass.py:26-41 | fails exactly when the length range is empty; otherwise the length lies in it (12 to 24 by default), and every character is from the character set and not a look-alike unless allowed |
| GenPass.PassWordDefaultLength | utils/genpass.py:28-29 | without `--min` and `--max` a password has 12 to 24 characters (also line 38) |
| GenPass.PassPin | utils/genpass.py:57-65 | a PIN is all digits, its length in the (defaulted) range, and fails exactly when that range is empty |
| GenPass.PassPinDefault | utils/genpass.py:59-62 | without `--min` and `--max` a PIN has exactly 4 digits |
| GenPass.PassPhraseWords | utils/genpass.py:44-54 | with a dictionary of single words, the phrase splits on spaces into 4 to 6 (or the given range of) words, each a stripped dictionary line |
| GenPass.ClipboardStatus | utils/genpass.py:87-91 | `output_clipboard` returns 1 exactly when the copy program exits with a positive status |
| GenPass.RunMainAsWritten | utils/genpass.py:185-202 | as written `main` returns 1 exactly when generating fails or writing raises |
| GenPass.ClipboardFailureIgnored | utils/genpass.py:87-91 | a copy program that fails still gives exit status 0 (also lines 194-202) |
| GenPass.RunMain | utils/genpass.py:185-202 | with the output's status passed on, `main` returns 1 exactly when generating fails, writing raises or the copy program fails, and 0 otherwise |
| GenPass.MainAgrees | utils/genpass.py:185-202 | the two differ exactly when generation succeeded and the copy program failed |
| Backup.FirstExisting | utils/backup.py:78-83 | None exactly when no target exists; otherwise the first target that exists |
| Backup.FindTarget | utils/backup.py:78-83 | the for/else search returns the first existing target volume, or None when the `else` branch reports that none was found |
| Backup.TargetPathUnder | utils/backup.py:104-105 | a source is copied to the volume joined with its directory, leading slashes stripped, so the target lies under the volume |
| Backup.Arguments | utils/backup.py:109-124 | the appends build exactly the rsync argument vector for the source |
| Backup.ArgvShape | utils/backup.py:109-124 | rsync gets "-auc", then "-v" exactly when not quiet, the two delete options, "--exclude-from" with the excludes file when there is one, and the log option, source and target last |
| Backup.AfterSourceGrows | utils/backup.py:104-125 | backing up a source only adds to the file system: the target directory exists afterwards, and so does the copy rsync makes of each path at or below the source (also lines 98-99) |
| Backup.ChildTarget | utils/backup.py:104-105 | the target directory of a path directly inside a source is where rsync puts that source's copy |
| Backup.NestedSourceNotMade | utils/backup.py:98-125 | a source directly inside an earlier source, such as /Users/u/Music after /Users/u, finds its target directory already made by the earlier rsync, so the loop runs only its rsync |
| Backup.FirstSourceTurn | utils/backup.py:98-125 | the loop over one existing source takes that source's actions and leaves the file system as `AfterSource` describes |
| Backup.SourceActionsShape | utils/backup.py:104-125 | one existing source gives `makedirs` of its target exactly when the target is missing, then one rsync |
| Backup.FsGrows | utils/backup.py:98-107 | the file system only grows during the loop |
| Backup.ExistingIn | utils/backup.py:98-103 | the sources backed up exist when reached, each is a configured source after `expanduser`, and there are no more of them than configured sources |
| Backup.ExistingComplete | utils/backup.py:98-103 | every configured source whose expansion exists at the start is backed up |
| Backup.RsyncsAppend | utils/backup.py:125 | the rsync runs of two stretches of actions are those of the first followed by those of the second |
| Backup.Argvs | utils/backup.py:98-125 | one rsync argument vector per existing source, in order |
| Backup.LoopStep | utils/backup.py:98-128 | one turn leaves the file system as `FsStep` says: for an existing source, its target directory made when missing and rsync's copy of the source's tree added; otherwise unchanged |
| Backup.LoopRunsAll | utils/backup.py:98-128 | the intended loop runs one rsync per existing source, in order, into a target directory that exists by then; it counts exactly those sources, reports exactly those whose rsync fails, and makes each missing directory once |
| Backup.TracksStep | utils/backup.py:98-103 | one more source keeps the count equal to the number of existing sources |
| Backup.SourceRsyncs | utils/backup.py:104-125 | backing up one source runs exactly its own rsync |
| Backup.RsyncsStep | utils/backup.py:98-128 | one more source keeps one rsync per existing source and the failures exactly those exiting nonzero |
| Backup.ArgvsAppend | utils/backup.py:98-125 | one more existing source adds its rsync vector at the end |
| Backup.FailedStep | utils/backup.py:126-127 | a source is reported as failed exactly when its rsync exits nonzero |
| Backup.MakesStep | utils/backup.py:106-107 | one more source keeps every directory made missing at the start and made once |
| Backup.MadeOnceStep | utils/backup.py:106-107 | backing up one more existing source keeps every directory made fresh and made once |
| Backup.MakesStepActions | utils/backup.py:106-107 | appending one source's actions keeps each directory made missing beforehand and made once |
| Backup.SharedTargetMadeOnce | utils/backup.py:17-19 | two home directories under /Users share the target `<volume>/Users`, which is made once, before the first rsync only (also lines 104-107) |
| Backup.AgreeStep | utils/backup.py:98-128 | one more source keeps the loop as written and the intended loop in step while no rsync fails |
| Backup.AgreeOne | utils/backup.py:98-128 | a turn whose rsync, if any, succeeds takes both loops to the same place |
| Backup.AgreeBackedUp | utils/backup.py:104-128 | the turn of an existing source whose rsync succeeds is the same in both loops |
| Backup.LoopAgrees | utils/backup.py:98-128 | the loop as written does what the intended loop does whenever no rsync fails |
| Backup.FailureAbandonsRest | utils/backup.py:125-127 | as written, a failing rsync raises and the next source is never backed up, where the intended loop backs up both |
| Backup.LoopAsWrittenErrSticks | utils/backup.py:125 | once `check_call` has raised, the remaining sources change nothing |
| Backup.CountIsExisting | utils/backup.py:97-103 | when every rsync succeeds, the count reported is the number of configured sources that exist, each backed up once, in order (also line 129) |
| Backup.LogActions | utils/backup.py:92-94 | an earlier backup.log is moved to backup.log.bak exactly when it exists |
| Backup.LogMoved | utils/backup.py:92-94 | after the move backup.log is gone and backup.log.bak exists; without a log nothing changes |
| Backup.Values | utils/backup.py:87 | one value per pair, in order, each the pair's value |
| Backup.SectionValuesAreGets | utils/backup.py:78 | a section's values are read exactly when the file has the section, and they are exactly the values a `get` of the section finds under a lower-case name, its own or inherited from DEFAULT (also line 87) |
| Backup.RunConfig | utils/backup.py:63-130 | with the settings read, a configured excludes file that does not exist returns 1 before any action; a missing [Target] or [Sources] section raises; no existing target returns 1; no sources returns 0; otherwise the log is moved aside and the loop's count and actions are those of the loop as written, which returns 0 or raises |
| Backup.RunMain | utils/backup.py:60-130 | `main` on the parsed file behaves as `RunConfig` describes for the ExcludesFile option and the [Target] and [Sources] values `items` gives, DEFAULT's included |
| Backup.BackUpSources | utils/backup.py:97-130 | the loop's actions and count are those of the loop as written, 0 when it goes through and the exception when `check_call` raises |
| Backup.BackUpOne | utils/backup.py:98-128 | one turn takes the loop as written one source further |
| Backup.StepTaken | utils/backup.py:98-128 | the loop as written, one existing source further, in terms of the actions the turn appends |
| Backup.LoopAsWrittenNext | utils/backup.py:98-128 | the loop as written over one more source is one more turn |
| DuplicateFiles.ReadBlock | utils/duplicate-files.py:15 | a read returns the next bytes of the file: empty exactly at the end, at most 1024 bytes, and a full block unless it reaches the end (also lines 19-21) |
| DuplicateFiles.GetFileHash | utils/duplicate-files.py:13-23 | the blocks fed to the hash are non-empty, full but for the last, and together the whole file, so the digest is the SHA-1 of the file's contents |
| DuplicateFiles.Positions | utils/duplicate-files.py:50-58 | the positions of a hash are positions of found files |
| DuplicateFiles.Pick | utils/duplicate-files.py:56 | the files at the given positions, in that order |
| DuplicateFiles.Insert | utils/duplicate-files.py:55-58 | a file is appended to the list of its hash, which is created when missing; other lists are unchanged |
| DuplicateFiles.GroupSnoc | utils/duplicate-files.py:54-58 | finding one more file inserts it under its hash |
| DuplicateFiles.PositionsExact | utils/duplicate-files.py:50-58 | the positions of a hash increase and are exactly the files with that hash |
| DuplicateFiles.PickPrefix | utils/duplicate-files.py:56 | files found later do not move the earlier ones |
| DuplicateFiles.GroupIsPositions | utils/duplicate-files.py:50-58 | the table holds a list exactly for the hashes some file has, and each list is the files with that hash in walk order |
| DuplicateFiles.GroupAtStep | utils/duplicate-files.py:54-58 | one more file keeps each list equal to the files at its hash's positions |
| DuplicateFiles.GroupsPartition | utils/duplicate-files.py:50-58 | every file lands in the list of its own hash, and every list holds only files of that hash |
| DuplicateFiles.Duplicates | utils/duplicate-files.py:63-67 | exactly the hashes with more than one file are reported, each with its whole list |
| DuplicateFiles.ReportedIff | utils/duplicate-files.py:63-67 | a hash is reported exactly when at least two files have it |
| DuplicateFiles.DuplicatesReported | utils/duplicate-files.py:50-67 | two different files with the same hash are both reported under it |
| DuplicateFiles.TwoMembers | utils/duplicate-files.py:64 | two different files make a list longer than one |
| DuplicateFiles.ReportedAreDuplicates | utils/duplicate-files.py:50-67 | every reported group is two or more files of the walk that all have the reported hash, in walk order |
| DuplicateFiles.DirFiles | utils/duplicate-files.py:52-53 | each file name of a directory joined to the directory's path, in order |
| DuplicateFiles.Root | utils/duplicate-files.py:43-48 | the path walked is the last argument, or "." without one |
| DuplicateFiles.AddFile | utils/duplicate-files.py:54-58 | one file is hashed and appended to the list of its hash |
| DuplicateFiles.GroupAppend | utils/duplicate-files.py:51-58 | the files of a later directory continue from the table of the earlier ones |
| DuplicateFiles.HashDirFiles | utils/duplicate-files.py:52-58 | the inner loop inserts the directory's files in turn |
| DuplicateFiles.HashFiles | utils/duplicate-files.py:50-58 | the walk builds exactly the table grouping every file found by its hash |
| DuplicateFiles.Run | utils/duplicate-files.py:35-68 | a usage error exactly when a given path does not exist; otherwise exactly the groups of two or more files under the path with equal hashes |
| TbbInstall.PreStart | utils/tbb-install.py:126 | the pre-release tag starts at the first "a" or "b" after the release numbers, or there is none |
| TbbInstall.PreStartIs | utils/tbb-install.py:126 | any position with no "a" or "b" before it and one at it is where the tag starts |
| TbbInstall.ParseVersion | utils/tbb-install.py:125-128 | a string accepted as a StrictVersion contains a "." (its exact inverse is stated by ParseVersionString) |
| TbbInstall.ParseBody | utils/tbb-install.py:125-128 | a string the version pattern accepts contains a "." |
| TbbInstall.DigitsWithout | utils/tbb-install.py:136 | a printed number contains no letter or newline |
| TbbInstall.ReleaseJoin | utils/tbb-install.py:136 | the printed release numbers have no "a", "b" or newline and split back on "." into the same numbers |
| TbbInstall.ParseVersionString | utils/tbb-install.py:117-136 | the version `set_version` writes (`str(v)` and a newline) is read back by `version()` as the same version, and `StrictVersion(str(v))` is `v` |
| TbbInstall.VersionStringLast | utils/tbb-install.py:136 | `str(v)` does not end in a newline |
| TbbInstall.ParseBodyString | utils/tbb-install.py:126 | the version pattern accepts `str(v)` and gives back `v` (also line 136) |
| TbbInstall.NewlineNotLast | utils/tbb-install.py:136 | a string without newlines does not end in one |
| TbbInstall.Compare | utils/tbb-install.py:254 | comparing two versions gives -1, 0 or 1 |
| TbbInstall.CompareAntisymmetric | utils/tbb-install.py:254 | swapping the versions flips the sign of the comparison |
| TbbInstall.CompareZero | utils/tbb-install.py:254 | two versions compare equal exactly when they are the same version |
| TbbInstall.CompareTransitive | utils/tbb-install.py:254 | "newer than" is transitive |
| TbbInstall.PreReleaseOlder | utils/tbb-install.py:254 | a pre-release is older than the release with the same numbers |
| TbbInstall.Configure | utils/tbb-install.py:72-90 | only "darwin" (given, or the running platform when none is given) has parameters; any other platform raises KeyError |
| TbbInstall.VersionAt | utils/tbb-install.py:112-129 | no version when the VERSION file is missing, unreadable or invalid; an empty file gives an unparsed version object; otherwise the parsed contents (also lines 138-141) |
| TbbInstall.SetVersionAt | utils/tbb-install.py:131-136 | `set_version` writes the VERSION file and changes no other file |
| TbbInstall.VersionAfterSetVersion | utils/tbb-install.py:112-141 | after `set_version(v)`, `version()` gives `v`, and no other file has changed |
| TbbInstall.Installation.constructor | utils/tbb-install.py:97-100 | the installation is at the given path, or at the platform's default path |
| TbbInstall.Installation.InstalledVersion | utils/tbb-install.py:112-129 | the installation's `version()` is that of its VERSION file |
| TbbInstall.Installation.MoveAside | utils/tbb-install.py:106-110 | succeeds exactly when `mv` does, and then the installation is at its normalised path plus ".OLD"; a failing `mv` raises and leaves the path unchanged |
| TbbInstall.DefaultMovedAside | utils/tbb-install.py:74 | the default installation is moved to /Applications/TorBrowserBundle_en-US.app.OLD (also lines 106-110) |
| TbbInstall.MovedAsideUnder | utils/tbb-install.py:106-110 | a bundle directly under /Applications given with a trailing slash is moved aside next to itself |
| TbbInstall.AppsJoin | utils/tbb-install.py:108 | joining "Applications" and a name puts a single "/" between them |
| TbbInstall.AppsPath | utils/tbb-install.py:108 | the absolute path under /Applications, with or without a trailing slash |
| TbbInstall.UnpackerFor | utils/tbb-install.py:168-178 | ".zip" is unzipped, ".tar.gz" (when not ".zip") is untarred, and anything else raises NotImplementedError |
| TbbInstall.UnpackerExamples | utils/tbb-install.py:76-77 | the bundle names the web site offers are unzipped; a ".dmg" is refused (also lines 172-178) |
| TbbInstall.UnpackBundle | utils/tbb-install.py:168-183 | succeeds exactly when the extension is known and the unpacked bundle exists, giving the tool and the bundle's directory; a missing directory raises RuntimeError |
| TbbInstall.SumPrefixMonotone | utils/tbb-install.py:193-197 | extracting more members never lowers the progress |
| TbbInstall.UnzipBundle | utils/tbb-install.py:185-198 | the bar's maximum is the total uncompressed size; after each member the progress is the size extracted so far, it never decreases or exceeds the maximum, and it ends at the maximum |
| TbbInstall.InstallBundle | utils/tbb-install.py:154-166 | succeeds exactly when unpacking succeeds, an existing installation is moved aside, and the final `mv` succeeds; the new installation is at the default path, and the old one (if moved) at its path plus ".OLD" |
| TbbInstall.CheckParams | utils/tbb-install.py:297-301 | raises exactly when both debug and quiet are asked for |
| TbbInstall.DecideUpToDate | utils/tbb-install.py:250-259 | an installation of known version is kept exactly when not forced and it is at least as new as the latest |
| TbbInstall.DecideUnknownInstalls | utils/tbb-install.py:250-266 | with no installation or no readable version the bundle is always installed |
| TbbInstall.SignatureUrl | utils/tbb-install.py:227 | the signature URL is the bundle URL with ".asc" appended |
| TbbInstall.DownloadName | utils/tbb-install.py:347 | the downloaded file's name contains no "/" |
| TbbInstall.DownloadNameIsBasename | utils/tbb-install.py:347 | the last piece of the URL split on "/" is the URL's basename |
| TbbInstall.Run | utils/tbb-install.py:240-283 | a failing parameter check or missing gpg raises RuntimeError; an empty VERSION file raises AttributeError; an up-to-date installation is kept with its version; otherwise success exactly when the signature checks, unpacking succeeds, an existing installation is moved aside and the move succeeds, and then the new installation's version is the latest; an error leaves the files unchanged (also lines 297-328) |
| FvwmDesk.ReadStateFile | fvwmdesk/fvwmdesk.py:34-52 | no state file means no desks; a file that cannot be opened raises IOError; otherwise the file's lines, each stripped, in order |
| FvwmDesk.StripEach | fvwmdesk/fvwmdesk.py:46-48 | the loop leaves every entry of the list stripped in place, in order |
| FvwmDesk.ReadWritten | fvwmdesk/fvwmdesk.py:42-48 | a state file holding one name per line reads back as exactly those names |
| FvwmDesk.ReadWrittenStep | fvwmdesk/fvwmdesk.py:42-48 | one more line in the file gives one more desk |
| FvwmDesk.LinesOfStateText | fvwmdesk/fvwmdesk.py:44 | one more name written adds its line to the lines read |
| FvwmDesk.StateTextEnd | fvwmdesk/fvwmdesk.py:44 | a state file written one name per line ends with a newline |
| FvwmDesk.StripNewline | fvwmdesk/fvwmdesk.py:46-48 | stripping removes the newline a name was stored with |
| FvwmDesk.LinesSnoc | fvwmdesk/fvwmdesk.py:44 | `readlines` of a file with one more line gives that line at the end |
| FvwmDesk.LinesAppend | fvwmdesk/fvwmdesk.py:44 | the lines before a line break are read the same in a prefix of the file |
| FvwmDesk.LineEndPrefix | fvwmdesk/fvwmdesk.py:44 | a line ending before the cut ends at the same place in the prefix |
| FvwmDesk.LinesOfOne | fvwmdesk/fvwmdesk.py:44 | a final line read is the rest of the file |
| FvwmDesk.LineEndIs | fvwmdesk/fvwmdesk.py:44 | a line ends at the first newline |
| FvwmDesk.DigitRun | fvwmdesk/fvwmdesk.py:27 | the number at the head of a printed line is the whole run of digits there (also line 60) |
| FvwmDesk.ReadNumberOf | fvwmdesk/fvwmdesk.py:27 | a printed desk number reads back as the same number (also line 60) |
| FvwmDesk.DigitRunIs | fvwmdesk/fvwmdesk.py:27 | a maximal run of digits is the number's extent (also line 60) |
| FvwmDesk.ParseLabelLine | fvwmdesk/fvwmdesk.py:27 | a pager label line gives back its desk's number and name |
| FvwmDesk.LabelLinesParse | fvwmdesk/fvwmdesk.py:26-27 | one label line per desk, the i-th naming desk i with its name |
| FvwmDesk.ParseDumpLine | fvwmdesk/fvwmdesk.py:60 | a dump line gives back its desk's number and name |
| FvwmDesk.DumpState | fvwmdesk/fvwmdesk.py:55-60 | a header with the count, then for each desk the line "<number>: <name>" numbered from 0, which reads back as that number and name |
| FvwmDesk.FvwmpagerLabels | fvwmdesk/fvwmdesk.py:23-27 | the argument is ignored: the state file is read again, and one label line is printed per desk read, or the read's error is raised |
| FvwmDesk.DumpThenLabels | fvwmdesk/fvwmdesk.py:66-70 | the dump followed by the labels reports the count, then each desk numbered from 0, twice |
| FvwmDesk.Run | fvwmdesk/fvwmdesk.py:14-16 | an unset $HOME raises KeyError; otherwise the run succeeds exactly when the state file reads, and prints the dump and the pager labels of its desks (also lines 66-72) |
| Strings.StripSpan | fvwmdesk/fvwmdesk.py:48 | `str.strip()` removes exactly the leading and trailing whitespace and keeps the middle |
| Strings.StripAll | fvwmdesk/fvwmdesk.py:47-48 | stripping a list of lines strips each line and keeps their number and order |
| Strings.Split | utils/tbb-install.py:347 | `str.split(sep)` gives at least one piece, none containing the separator, and joining them gives the string back |
| Strings.SplitJoin | utils/tbb-install.py:347 | splitting pieces joined with a separator none of them contains gives the pieces back |
| Strings.SplitCount | utils/tbb-install.py:347 | a split gives one more piece than there are separators |
| Strings.Words | utils/networkwatcher.py:100 | `str.split()` gives non-empty pieces with no whitespace, and none exactly for a blank line |
| Strings.WordsCons | utils/networkwatcher.py:100 | a word followed by a space and the rest splits into that word and the rest's words |
| Strings.LowerIdempotent | utils/vm-do.py:30 | lower-casing an option name twice changes nothing more |
| Strings.Lower | utils/vm-do.py:30 | `optionxform` lower-cases the ASCII capitals and keeps every other character |
| Strings.ReplaceChar | utils/networkwatcher.py:271-272 | `replace` of one character changes exactly its occurrences |
| Strings.IntToStringDigits | utils/vm-do.py:96-97 | `"%d" % status` is digits with a leading minus sign exactly for a negative status |
| Strings.DigitsValueOfNatToString | fvwmdesk/fvwmdesk.py:27 | a printed number reads back as itself (also line 60) |
| Strings.NatToStringInjective | fvwmdesk/fvwmdesk.py:27 | different numbers are printed differently (also line 60) |
| Paths.Basename | virtualbox/vbox-add-vm.py:156 | `os.path.basename` is the part after the last "/", a suffix of the path with no "/" |
| Paths.SplitExt | virtualbox/vbox-add-vm.py:156 | `os.path.splitext` cuts the path into a root and an extension that together give the path back; the extension is empty or one dot followed by no "." or "/" |
| Paths.JoinSplits | utils/duplicate-files.py:52-53 | `os.path.join(dir, name)` is dir + "/" + name, whose basename is name and dirname dir |
| Paths.StripLeadingSlashes | utils/backup.py:105 | `lstrip(os.sep)` removes exactly the leading slashes, leaving a relative path |
| Paths.ExpandUser | utils/backup.py:99 | `os.path.expanduser` leaves a path not starting with "~" unchanged |
| Paths.NormPathTrailingSlash | utils/tbb-install.py:108 | `normpath` of a clean absolute path with a trailing slash drops that slash |
| Paths.AbsPathOf | virtualbox/vbox-add-vm.py:153 | `os.path.abspath` of a plain name in a clean directory is the directory joined with the name (also line 171) |
| TextFile.LinesConcat | fvwmdesk/fvwmdesk.py:44 | the lines `readlines` gives, joined, are the whole file |
| TextFile.LinesShape | fvwmdesk/fvwmdesk.py:44 | each line read is non-empty and ends with its only newline, except perhaps the last, which has none |
| ConfigParser.Dict | utils/vm-do.py:30 | every option name a section's dictionary holds is lower-case, as `optionxform` leaves it |
| ConfigParser.DictKeys | utils/vm-do.py:30 | a name is an option of the section exactly when some line names it, in any case |
| ConfigParser.DictLast | utils/vm-do.py:39 | an option holds the value of the last line that names it, in any case |
| ConfigParser.DictAppend | utils/vm-do.py:30-39 | the dictionary of DEFAULT's lines followed by a section's is DEFAULT's overridden by the section's |
| ConfigParser.NamesAreKeys | utils/backup.py:78 | the names `items` lists are exactly the options, each once |
| ConfigParser.RawGetLookup | utils/backup.py:66-67 | `get` of an unknown section raises NoSectionError; otherwise the section's own line for the name in any case wins, then DEFAULT's, and with neither NoOptionError |
| ConfigParser.GetAnyCase | utils/majordomo-approver.py:60-61 | a line "Grid-Announce = v" answers a `get` of any spelling that lower-cases alike, and a DEFAULT line answers for a section that does not set the name |
| ConfigParser.VarRef | utils/majordomo-approver.py:60-61 | a recognised reference is the text "%(" name ")s" at the start of the value, with a non-empty name holding no ')' |
| ConfigParser.VarRefOf | utils/majordomo-approver.py:60-61 | a reference written out is recognised as its name and length |
| ConfigParser.InterpolatePlain | utils/majordomo-approver.py:60-61 | SafeConfigParser returns a value without '%' unchanged |
| ConfigParser.InterpolateEscape | utils/networkwatcher.py:254 | a value written with each '%' doubled reads back as the text itself |
| ConfigParser.InterpolateLonePercent | utils/networkwatcher.py:254-256 | a '%' followed by neither '%' nor '(', or ending the value, raises |
| ConfigParser.InterpolateReference | utils/majordomo-approver.py:60-61 | `%(name)s` is replaced by the value of the option the name lower-cases to; a reference to a missing option raises |
| ConfigParser.SafeGetValue | utils/networkwatcher.py:254 | SafeConfigParser's `get` returns a value without '%' as read, and a value with each '%' doubled as the text it escapes |
| ConfigParser.SafeGetLonePercent | utils/networkwatcher.py:253-257 | `get` raises on a value whose first '%' is followed by neither '%' nor '(', so the `except` skips the option |
| ConfigParser.Pairs | utils/backup.py:87 | the pairs are exactly the listed names other than `__name__`, each with its dictionary value |
| ConfigParser.ItemsAreGets | utils/backup.py:78 | the pairs `items` gives are exactly the lower-case options a `get` of that section finds, DEFAULT's included, each name once with the section's value over DEFAULT's |

## Left out

- Process execution, the file system, the clock, randomness, SHA-1, zip extraction, HTTP (requests, BeautifulSoup) and gpg are inputs to the model: exit statuses, outputs, sets of existing paths, file contents, random picks and hash functions. Their own behaviour is not modelled.
- Printing and logging (`print`, `logging`, progress bars, the `message`/`verboseMsg`/`debug` helpers) are not modelled. The exceptions are scripts whose printed lines are their result: vm-do's `runCmd` and `getOS`, fvwmdesk, and duplicate-files' report. Those are modelled as returned text, lines or groups. For `runCmd` the returned text is its whole standard output: the `-p` prefix, the command's own output (an input), the blank `print`, the `-c`/`-C` names and the failure message.
- Sleeping and polling delays (`time.sleep` in network-fix and vbox-add-vm) are not modelled; a polling loop is modelled over the sequence of values it observes.
- Option parsing (optparse/argparse, `--help`, `--version`, choice validation) is not modelled; each script's options arrive as parsed values.
- ConfigParser's file reader is not modelled: a configuration arrives as the (name, value) lines of DEFAULT and of each section, in file order. Section headers, comments, continuation lines and parse errors are left out. From there the model follows the library: `optionxform` lower-cases every option name, a later line replaces an earlier one, each section inherits DEFAULT's options, `get` raises NoSectionError or NoOptionError, SafeConfigParser expands "%%" and `%(name)s` and raises on any other '%', and `items` lists DEFAULT's options with the section's.
- Backup.RunMain: plain ConfigParser's `%(name)s` substitution in the values `get` and `items` return is not modelled; the values are taken as read. A value holding "%(" could read differently or raise.
- VmDo.VirtualMachine.ReadOptions: does not model plain ConfigParser's `%(name)s` substitution or its errors. The DEFAULT section is modelled: its options are merged under each section's.
- Python's `re` engine is not modelled in general. Each pattern the scripts use is modelled by its own function, or by the `Regex` fragment that covers the majordomo patterns.
- utils/mail-tunnels.py, globus/install-gt.py, the wrapper scripts (kinit-wrap, delicious-backup, backup-web-server, backup-keys, pdf-from-msoffice, pdf-join, pbpaste) and python/main.py are not part of this model. They are signal-driven process supervision, code that does not parse, or straight-line wrappers with no logic of their own.
- majordomo-approver's command-line dispatch (lines 472-499) is not modelled: it writes each call out as Python source text and runs it with `eval`. The list methods it reaches (subscribe, unsubscribe, who, config, newconfig, execute) are modelled directly. `handleMsg` (lines 332-382) is not part of this model, because it calls names the script does not define. The SMTP sending in `execute` is also left out: the model stops at the assembled mail.
- bulk-mail's `EmailOut` and SMTP session are not modelled; the model stops at each recipient's formatted message.
- ParsePhoto.Run: the clock arrives as one reading (the two formatted strings), where the script calls `localtime` again for each part. A run that crosses a second boundary is not modelled.
- VmBackup.RunBackups: does not model a failing `runCmd` for `ls -l` or for scp, which raises and ends `main` before any VM is marked. Only the empty-listing crash in `getModTime` is modelled.
- NetworkFix.Rate: the failure rate printed with "%4.2f" is a float; the model gives its integer part (integer percentage), and the formatting itself is not modelled.
- TbbInstall.Run: the web-site lookup (`get_bundle_info`: the page fetch, the link search with the bundle pattern and `urljoin`) and the download itself are inputs: the bundle URL, the latest version and the temporary directory. `check_gpg`'s search for a gpg binary is a flag. Because `sh` raises on a nonzero exit status, a failing `gpg --list-keys` ends in `ErrorReturnCode`, not in the script's own RuntimeError.
- TbbInstall.UnzipBundle: the progress bar's display is not modelled; only the sizes it is given are.
- VBoxAddVm.RunMain: the usage error for a wrong number of arguments is not modelled; the single settings-file argument is a parameter. The `-q`/`-v` verbosity only affects messages and is not modelled.
- NetworkWatcher.Act: a missing or unparsable configuration file (`errorExit`) and the output of the commands run are not modelled. The configuration arrives already read, and the commands are returned, not executed.
- GenPass.PassPhrase: a dictionary file that cannot be opened is an error; reading it otherwise is an input (its lines).
- DuplicateFiles.Run: the order in which `os.walk` lists directories and files is an input. Unreadable files are not modelled.
- Backup.RunMain: `os.makedirs` and `shutil.move` are assumed to succeed. A failure of either would raise.
- Backup.LoopStep: rsync is modelled as adding a copy of every path at or below the source. What `--delete` and `--delete-excluded` remove from the target, what `--exclude-from` keeps out, and the `-u`/`-c` update decisions are not modelled. A source written with a trailing '/', which rsync copies as its contents, has only its own path copied in the model.

## Findings

| source | as written | input that shows it | evidently intended | confidence | as-written member | corrected member |
|---|---|---|---|---|---|---|
| vm/vm-backup.py:118-129, 248-255 | `getModTime` filters the listing with `fnmatch` on each entry's full path against the bare name "vm-backup-last", so the marker file is never filtered out. Its time stays in the maximum, and a VM that was backed up is never skipped | a VM whose directory lists `disk.vmdk` at time 5 and `vm-backup-last` at time 10 | the marker is left out of the maximum, so an unchanged VM is skipped | not executed | VmBackup.AsWrittenNeverSkips, VmBackup.NoVmSkippedAsWritten | VmBackup.SkipIff, VmBackup.SkipReachable, VmBackup.RunBackups |
| utils/backup.py:125-127 | `subprocess.check_call` raises `CalledProcessError` on a nonzero exit, so the "Error backing up" branch never runs and every source after a failing rsync is abandoned | two existing sources whose first rsync exits with 1 | a failing rsync is reported and the loop goes on to the remaining sources | not executed | Backup.FailureAbandonsRest, Backup.LoopAsWritten | Backup.LoopRunsAll, Backup.LoopAgrees |
| utils/genpass.py:87-91, 194-202 | `main` drops the status `output_clipboard` returns, so a copy program that fails still gives exit status 0 | generating "pw" for the clipboard with the copy program exiting with 1 | the script exits with 1 when the password did not reach the clipboard | not executed | GenPass.ClipboardFailureIgnored, GenPass.RunMainAsWritten | GenPass.RunMain, GenPass.MainAgrees |
| utils/vm-do.py:25-39 | the default "sshCmd" is compared with option names that ConfigParser has lower-cased, so no configuration line can change the ssh command | a section with the line `sshCmd = /usr/local/bin/ssh` | the ssh command is configurable per machine | not executed | VmDo.SshCmdNeverSet | VmDo.SshCmdConfigurable, VmDo.ConfiguredIntended |
