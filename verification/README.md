# Verification model of webboot

webboot is a boot loader with a terminal interface: it browses a cache
directory of ISO images or downloads one, connects to a wireless network for
that if it must, and boots what the user picks. This project models the parts
that hold state, loops or arithmetic, and proves what they promise. Everything
that comes from outside, keys, files, commands, the network, is an input that
may be anything; a lemma is about all of them.

- **Scanning for networks** (`Text`, `IwlPatterns`, `IwlParse`, `IwlScans`,
  `IwlPanics`, `IwlPrinter`). `parseIwlistOut` on bytes: five multi-line
  regular expressions with Go's leftmost, non-overlapping search, three match
  lists combined by index, byte ranges cut out, duplicates dropped. It is
  proved equal, for every input, to a definition on lines; that definition is
  then compared with an iwlist printer, with reading cell by cell, with reading
  in pieces, and its panics are characterised.
- **The menus** (`Events`, `Widgets`, `Menu`, `MenuRuns`, `LineEditor`,
  `Pager`, `ProgressBar`). The loops over key streams, as methods over the
  widgets they change, each proved equal to a step function; and the handshake
  of `animate` and `Close` as a transition system over all interleavings.
- **The program** (`Paths`, `PathPlaces`, `CacheDevice`, `Webboot`,
  `WebbootRuns`, `WebbootWays`). The main loop as a class, with the `exec`
  methods of the four kinds of entry, over real path strings; safety of whole
  runs, and where each key leads.
- **Loading configurations** (`CustomConfigs`). `LoadCustomConfigs` on file
  objects, as a refinement of loading without a table.
- **Event capabilities** (`EventCapa`). The 32-bit-word bitset and the set of
  commands it stands for.
- **Connecting** (`Network`). `selectWirelessNetwork` down to the text of the
  configuration.

A key stream is finite: what has arrived so far. Where the program would wait
for more, the result is `Waiting` or `Hung`, so a statement about all streams
is one about every moment of every run. A Go string is a sequence of bytes;
every `char` stands for one. Each method is proved equal to a function; what
that function is to mean is stated apart from it, in the literal words, keys and
numbers of the source.

## What the code does not do

Some properties one would expect are false of the code. Each is proved with
its exact condition.

- Access points are read back unchanged if and only if no ESSID of theirs holds
  a colon or has a quote at either end; `a:b` is read as `a`
  (`IwlPrinter.RoundTripIff`, `IwlPrinter.ColonCutsEssid`).
- The scanner panics, on any scan, exactly when the i-th cell has no i-th ESSID
  line, or one without a colon; or when its ESSID is new and it has no i-th key
  line, or is encrypted with a WPA2 line but no Authentication Suites line with
  a colon below it (`IwlPanics.PanicsIff`, `IwlPanics.MissingEssidPanics`,
  `IwlPanics.MissingSuitePanics`).
- The dot in the WPA2 pattern stands for any character, not only for a dot
  (`IwlPatterns.Wpa2LineIff`).
- The line editor works in a box of `wid` columns if and only if `wid >= 4`
  (`LineEditor.NarrowBoxes`). The comment of `PromptTextInput` speaks of a
  width of 100; the code, and the model, use 80.
- Down moves a menu back, not on, exactly on a short last page
  (`MenuRuns.DownMovesBack`).
- A directory with nothing to show cannot be gone back from, only left for the
  main menu through an error (`WebbootRuns.EmptyDirectory`).
- Escape and Ctrl-d at the checksum question neither go back nor exit, they
  become an error (`WebbootRuns.ChecksumGate`).
- Mount point and `IsoPath` make up the path of an image if and only if the
  mount point does not occur in it a second time (`CacheDevice.IsoPathIff`).
- An EAP configuration holds what was typed if and only if neither ESSID nor
  identity nor password has a newline in it (`Network.EapFields`); an ESSID from
  a scan never has one (`IwlScans.ReportedEssids`).
- Commands 0x8B60..0x8BBF share their bits with 0x8BE0..0x8C3F
  (`EventCapa.SharesBitIff`, `EventCapa.CollisionsExist`).

## Model

| member | source | states |
|---|---|---|
| Text.LinesOfSpace | pkg/wifi/iwl.go:38-43 | any run of blanks, tabs, newlines, form feeds and carriage returns in front of a line does not matter |
| Text.LinesOfText | pkg/wifi/iwl.go:38-43 | a line that begins with anything else is kept as it is, and no line is found in nothing |
| IwlPatterns.LineIff | pkg/wifi/iwl.go:39-43 | which lines each of four patterns takes, in the literal words of the patterns |
| IwlPatterns.FindAllDescribes | pkg/wifi/iwl.go:37-44 | for each of the five patterns the byte-level search finds exactly the non-blank lines it is about: match i starts at a line start from which the lines are those from the i-th such line on, and covers what the pattern matches there |
| IwlPatterns.Wpa2LineIff | pkg/wifi/iwl.go:42 | the WPA2 pattern takes exactly `IE: IEEE 802`, any one character in the place of its dot, `11i/WPA2 Version 1` |
| IwlPatterns.CharacterIff | pkg/wifi/iwl.go:42 | that character is one byte other than a newline, or the UTF-8 encoding of a code point |
| IwlParse.MatchText | pkg/wifi/iwl.go:103-108 | the field cut out of a match is the field of the line it is about, though the match may begin on blank lines above |
| IwlParse.CellRange | pkg/wifi/iwl.go:113-119 | the byte range from match i of Cell to match i+1, or to the end, holds exactly the lines of the i-th cell |
| IwlParse.ClassifyRange | pkg/wifi/iwl.go:118-135 | the protocol is that of the first Authentication Suites line at or after the first WPA2 line of the range; unsupported without a WPA2 line, a panic without a suites line |
| IwlParse.ParseIwlistOut | pkg/wifi/iwl.go:89-138 | for every byte string the loop over the three match lists, with its table of known ESSIDs and its byte ranges, gives what the definition on lines gives, panics included |
| IwlScans.CellsAreIndependent | pkg/wifi/iwl.go:82-137 | with one ESSID and one key line a cell, the result is what the cells say one by one: no cell depends on the lines of another |
| IwlScans.MatchesInsideCell | pkg/wifi/iwl.go:90-92 | then the i-th ESSID match and the i-th key match start after the start of cell i and end before the start of cell i+1 |
| IwlScans.ParseAppend | pkg/wifi/iwl.go:98-137 | reading a scan followed by one that starts at a Cell line gives the options of the first and those of the second with an ESSID that is new |
| IwlScans.ScanAppend | pkg/wifi/iwl.go:98-137 | the same for the bytes of two scans, the first ending a line |
| IwlScans.NoDuplicatesNoneLost | pkg/wifi/iwl.go:98-107 | in every scan that is read, the ESSIDs of the result differ and the ESSID of every cell is among them |
| IwlScans.CollectIsFirstCells | pkg/wifi/iwl.go:99-107 | a cell is kept exactly when no cell before it has its ESSID, in the order of the scan |
| IwlScans.ReportedEssids | pkg/wifi/iwl.go:103 | no ESSID that is reported holds a newline, whatever the scan |
| IwlPanics.PanicsIff | pkg/wifi/iwl.go:103-127 | for every scan, however its lines are arranged: an index is out of range exactly if some cell i has no i-th ESSID line or one without a colon, or is the first of its ESSID and has no i-th key line or is encrypted with a WPA2 line and no suite with a colon below it |
| IwlPanics.CellsPanicIff | pkg/wifi/iwl.go:82-127 | with one ESSID and one key line a cell, these are the lines of the cell itself |
| IwlPanics.MissingSuitePanics | pkg/wifi/iwl.go:125-127 | four lines on which the suites line is missing, for any character at the dot |
| IwlPanics.MissingEssidPanics | pkg/wifi/iwl.go:102-103 | two lines on which the ESSID is missing |
| IwlPrinter.CellsByKind | pkg/wifi/iwl.go:108-124 | the literal lines of a cell with the key off give NoEnc, with the key on and no WPA2 line NotSupportedProto, for every plain ESSID |
| IwlPrinter.CellsBySuite | pkg/wifi/iwl.go:120-132 | the literal lines of a WPA2 cell with suite PSK give WpaPsk, with 802.1x WpaEap |
| IwlPrinter.ClassifyCell | pkg/wifi/iwl.go:113-135 | a printed encrypted cell is PSK, 802.1x or unsupported as its own suite says, whatever other lines and suites stand around its WPA2 element |
| IwlPrinter.ParsePrint | pkg/wifi/iwl.go:89-138 | parsing the bytes printed for any list of well-formed access points gives the first of each ESSID as shown, in order, with its protocol |
| IwlPrinter.ShownIff | pkg/wifi/iwl.go:103 | an ESSID comes through unchanged if and only if it has no colon and no quote at an end |
| IwlPrinter.RoundTrip | pkg/wifi/iwl.go:89-138 | with such ESSIDs the parser inverts the printer |
| IwlPrinter.ShownIsPlain | pkg/wifi/iwl.go:103 | what is shown for any ESSID has no colon and no quote at an end |
| IwlPrinter.RoundTripIff | pkg/wifi/iwl.go:89-138 | any list of access points is read back as the first of each announced ESSID, unchanged, if and only if all its ESSIDs are such |
| IwlPrinter.ColonCutsEssid | pkg/wifi/iwl.go:103 | an access point named a:b is reported as a |
| Events.ReadKey | pkg/menu/menu.go:79-87 | gives the first keyboard or mouse event and leaves the stream behind it |
| Events.KeyIds | pkg/menu/menu.go:113-346 | the literal IDs of each key; other IDs are ignored exactly if they begin with < and typed otherwise |
| Events.KeysConcat | pkg/menu/menu.go:80-87 | the keys of two streams in a row are those of the first, then those of the second |
| Events.KeysOfOne | pkg/menu/menu.go:83-84 | keyboard and mouse events are keys and no others |
| Events.EditLaws | pkg/menu/menu.go:278-350 | Backspace takes the last byte back and is harmless on nothing, Space types a blank, a key its ID, and nothing else edits |
| Events.TextSinceEnter | pkg/menu/menu.go:123-149 | the text of a field is what the edits since the last Enter make of the empty text |
| Events.AtoiOfDecimal | pkg/menu/menu.go:263-368 | a number printed with %d is read back by Atoi |
| Events.DecimalDigits | pkg/menu/menu.go:368 | %d writes decimal digits, the last one last |
| Events.AtoiDigits | pkg/menu/menu.go:263 | Atoi takes a sign in front |
| Events.AtoiTooBig | pkg/menu/menu.go:263 | a number is refused exactly from 2^63 on |
| Events.AtoiIsNumber | pkg/menu/menu.go:263 | nothing but digits, at least one, behind an optional sign is a number |
| Events.AtoiLeadingZero | pkg/menu/menu.go:263 | a zero in front changes nothing |
| Menu.Step | pkg/menu/menu.go:253-351 | every key keeps 0 <= first < n and last = min(first + 10, n) |
| Menu.ParsingMenuOption | pkg/menu/menu.go:235-353 | outcome, rows, input and warning at the end are those of the step function run over the keys; the rows are labels[first..last]; without labels an error and nothing changed |
| MenuRuns.OutcomeIsAnswer | pkg/menu/menu.go:252-352 | the outcome on any keys from any window is that of a fold without a window over the text, Space, Backspace, Enter, Escape and Ctrl-d keys alone |
| MenuRuns.IgnoredEventsDoNotMatter | pkg/menu/menu.go:80-352 | two event streams that differ only in events that are not keys and in keys that scroll or do nothing have the same outcome, from any two windows |
| MenuRuns.AnswerIs | pkg/menu/menu.go:252-352 | the outcome, exactly: the first key that ends the menu decides, Ctrl-d by exiting, Escape by going back, Enter by choosing entry c if and only if Atoi of the text since the last Enter is c, c is in range and has no warning; without such a key it waits |
| MenuRuns.HowFar | pkg/menu/menu.go:283-323 | how far each scrolling key moves the window of ten labels |
| MenuRuns.ScrollOrType | pkg/menu/menu.go:278-351 | scrolling leaves the text alone and typing the window |
| MenuRuns.RejectedEnter | pkg/menu/menu.go:259-277 | an Enter that chooses nothing empties the field and shows the entry's own warning, or asks for a valid number |
| MenuRuns.ChosenIsAllowed | pkg/menu/menu.go:264-274 | no key stream chooses an index out of range or an entry with a warning of its own |
| MenuRuns.TypedIndexIsChosen | pkg/menu/menu.go:259-277 | from any window with an empty field, typing the number in front of entry i and Enter chooses i, for every i without a warning |
| MenuRuns.ReachableWindows | pkg/menu/menu.go:243-339 | the window can be brought exactly to first = 0 when n <= 10 and exactly to 0..n-1 when n > 10 |
| MenuRuns.RightThenLeft | pkg/menu/menu.go:283-299 | Right shows the labels that follow, none skipped or repeated, and Left takes it back |
| MenuRuns.DownThenUp | pkg/menu/menu.go:308-323 | Up takes Down back if and only if the last label was not yet shown, or nothing scrolls |
| MenuRuns.DownMovesBack | pkg/menu/menu.go:316-319 | Down decreases first if and only if the window stands on a short last page |
| MenuRuns.HomeAndEnd | pkg/menu/menu.go:324-339 | Home and End show the first and the last ten labels from anywhere |
| MenuRuns.PromptMenuEntry | pkg/menu/menu.go:360-427 | returns what the prompt function below says; the rows are ten labels in a row, or as many as there are from the first shown, with their own numbers in front |
| MenuRuns.PickedIsChosen | pkg/menu/menu.go:421-426 | an entry is picked if and only if it stands at the index the menu, with its window, chooses on the same events |
| MenuRuns.TypedIsPicked | pkg/menu/menu.go:421-426 | typing the number in front of entry i and Enter picks entries[i] |
| MenuRuns.PromptStops | pkg/menu/menu.go:255-258 | Ctrl-d refuses with the exit request, Escape with the back request |
| MenuRuns.PromptOutcomes | pkg/menu/menu.go:421-426 | the result is one of the entries, or the wish to go back or to exit, or, exactly when there are no entries, the no-entry error |
| LineEditor.ProcessInput | pkg/menu/menu.go:91-152 | outcome and final contents of both paragraphs are those of the step function over the keys, slices out of range included, for every width |
| LineEditor.WideBoxes | pkg/menu/menu.go:102-151 | with wid >= 4 the box always shows the last min(len, wid-3) bytes of the text, nothing is sliced out of range, and the outcome is that of the text alone |
| LineEditor.NarrowFails | pkg/menu/menu.go:128-148 | below 4 columns one letter, Backspace, Enter is a key stream that goes wrong |
| LineEditor.NarrowBoxes | pkg/menu/menu.go:102-148 | the box makes no difference on every key stream if and only if wid >= 4 |
| LineEditor.TypedIs | pkg/menu/menu.go:111-151 | the outcome, exactly: the first key that ends the editor decides, Ctrl-d by exiting, Escape by going back, Enter by accepting what isValid makes of the text, with the warning then shown; without such a key it waits |
| LineEditor.AcceptedText | pkg/menu/menu.go:118-151 | an input is accepted if and only if it is what isValid makes of the text at the first Enter at which that is valid, every Enter before having been rejected and nothing left |
| LineEditor.WarningOfEnter | pkg/menu/menu.go:119-125 | the warning is that of the last Enter, which was rejected, or the first one |
| LineEditor.TypedIsAccepted | pkg/menu/menu.go:64-67 | where nothing is checked, what is typed is what is accepted |
| LineEditor.PromptTextInput | pkg/menu/menu.go:155-160 | the outcome is that of the text alone, and it never crashes |
| LineEditor.TypedStops | pkg/menu/menu.go:114-117 | the only errors are going back and exiting |
| Pager.SplitLines | pkg/menu/menu.go:169-178 | the loop of DisplayResult wraps every message, in order |
| Pager.WrapAllConcat | pkg/menu/menu.go:172-178 | messages are wrapped one by one, in order |
| Pager.WrapAllOne | pkg/menu/menu.go:172-178 | each of them by its own length |
| Pager.WrapIsChunks | pkg/menu/menu.go:172-178 | the pieces put together are the message, all have 70 bytes but the last, which has at most 70 |
| Pager.WrapIsUnique | pkg/menu/menu.go:172-178 | there is no other way to cut a message into such pieces |
| Pager.SplitQuestion | pkg/menu/menu.go:437-446 | the loop of PromptConfirmation, of another shape, cuts the same pieces |
| Pager.QuestionText | pkg/menu/menu.go:437-446 | a question is shown in full lines of 70 bytes, then the rest on a line of its own |
| Pager.Scroll | pkg/menu/menu.go:211-223 | every scrolling key keeps a window of min(20, n) lines inside the text |
| Pager.HowFar | pkg/menu/menu.go:211-230 | how far each key scrolls the window of 20 lines; any other key leaves |
| Pager.DisplayResult | pkg/menu/menu.go:164-232 | returns the text of the window reached, with its marker, and the error of the key that leaves |
| Pager.JoinConcat | pkg/menu/menu.go:195 | lines are shown one below the other, in order |
| Pager.ShownWhenLeft | pkg/menu/menu.go:193-230 | for any scrolling keys and a key that leaves: the lines of the window reached, the marker (More) or (End of message) exactly for more than 20 lines, and the error of the key |
| Pager.LeftIffLeaves | pkg/menu/menu.go:210-230 | the display is left exactly when some key does not scroll, whatever is displayed |
| Pager.PageDownSkipsNothing | pkg/menu/menu.go:218-223 | the next page begins at or before the end of this one and gets on unless the end shows; likewise back |
| Pager.PagesToTheEnd | pkg/menu/menu.go:221-223 | of more than 20 lines the end shows after k PageDowns if and only if k >= ceil((n-20)/20) |
| Pager.PromptConfirmation | pkg/menu/menu.go:429-486 | the answer is that of the decision machine over the keys, and the question is shown wrapped |
| Pager.AnswerIsLastMark | pkg/menu/menu.go:464-485 | the answer is yes, or no, if and only if the last of 0, 1 and Backspace before the deciding Enter is 0, or 1 |
| Pager.DeclinedIff | pkg/menu/menu.go:467-470 | the question is declined if and only if the first key that ends it is Escape, going back, or Ctrl-d, exiting |
| ProgressBar.DotsNeverAccumulate | pkg/menu/menu.go:516-531 | in every interleaving, between ticks the text is the original one, and frame k of those drawn is that text with k mod 4 dots |
| ProgressBar.NothingDrawnAfterClose | pkg/menu/menu.go:533-539 | once Close has the ack, animate has returned and nothing but the clearing of the screen follows |
| ProgressBar.NeverDeadlocked | pkg/menu/menu.go:516-539 | in every reachable state some step is possible until Close is done |
| ProgressBar.CloseEnds | pkg/menu/menu.go:533-539 | once called, Close ends within seven steps of both in any interleaving, with at most the frame of the tick in progress |
| PathPlaces.CleanKeepsPlace | cmds/webboot/webboot.go:406-408 | from every working directory a cleaned path leads where the path does, by a walk that knows nothing of cleaning |
| PathPlaces.SameCleanIff | cmds/webboot/webboot.go:406-408 | two paths are cleaned to the same string if and only if both or none are absolute and they lead to the same place from everywhere: the format of a path is consistent |
| PathPlaces.CleanedAway | cmds/webboot/webboot.go:406-408 | going down and up again, staying, and going up from the root are cleaned away |
| Paths.CleanIsClean | cmds/webboot/webboot.go:404-408 | a cleaned path is clean, whatever the flag |
| Paths.JoinName | cmds/webboot/webboot.go:197-201 | joining a file name to a clean path is clean and appends exactly that name |
| Paths.DirOfJoin | cmds/webboot/webboot.go:471 | Dir(Join(p, name)) = p on strings, for clean p |
| Paths.BaseIsName | cmds/webboot/webboot.go:151 | path.Base of any link is a file name unless it is one of ".", ".." and "/" |
| Paths.BaseOf | cmds/webboot/webboot.go:151 | it is what stands behind the last slash |
| Paths.BaseTrims | cmds/webboot/webboot.go:151 | with slashes at the end left aside |
| Paths.JoinAlone | cmds/webboot/webboot.go:156 | a name joined to an empty directory stays as it is |
| Paths.DescendInjective | cmds/webboot/webboot.go:470 | different ways down lead to different strings, so the comparison with cacheDir is true at the top only |
| Paths.DirOfDescend | cmds/webboot/webboot.go:471 | Dir undoes the last step of a way down |
| CacheDevice.RemoveFirst | cmds/webboot/webboot.go:98 | ReplaceAll takes the first occurrence out and goes on behind it |
| CacheDevice.IsoPathIff | cmds/webboot/webboot.go:98 | mount point ++ IsoPath is the path if and only if the mount point is empty or does not occur again |
| CacheDevice.GetCachedDirectory | cmds/webboot/webboot.go:319-342 | the first device that can be mounted and has Images is taken; none is found if and only if there is none |
| CacheDevice.DirFlagWins | cmds/webboot/webboot.go:404-415 | -dir goes before a device that is found, and leaves the mount point empty |
| CacheDevice.BelowImages | cmds/webboot/webboot.go:335-338 | every place below a discovered cache directory is mount point ++ "/Images" ++ the names with slashes |
| Webboot.Program.GetMainMenu | cmds/webboot/webboot.go:351-370 | repeats after Back until an entry is picked or another error is fatal; nothing else changes |
| Webboot.Program.HandleErrorThenMenu | cmds/webboot/webboot.go:372-387 | Ctrl-d exits, Back goes to the main menu, any other error is displayed first |
| Webboot.Program.ExecDir | cmds/webboot/webboot.go:184-209 | DirOption.exec: the menu of the listing, or the error of reading it |
| Webboot.Program.AskMirror | cmds/webboot/webboot.go:286-310 | mirrorMenu: the first mirror with the label that was picked |
| Webboot.Program.DisplayChecksumPrompt | cmds/webboot/webboot.go:253-282 | displayChecksumPrompt, branch by branch |
| Webboot.Program.ExecDownload | cmds/webboot/webboot.go:128-181 | DownloadOption.exec: link, place, download, checksum gate, in this order |
| Webboot.Program.ExecIso | cmds/webboot/webboot.go:37-123 | ISO.exec: distro, configurations, choice, boot; IsoPath is set exactly when a configuration was chosen |
| Webboot.Program.Round | cmds/webboot/webboot.go:439-483 | one round of the main loop is one step of the machine |
| Webboot.Program.Loop | cmds/webboot/webboot.go:438-484 | the main loop is the machine run over the environments |
| WebbootWays.MainMenuTyped | cmds/webboot/webboot.go:351-370 | typing 0, 1 or 2 picks the cache directory, a download or the log; without a cache directory, 0 or 1 the last two |
| WebbootWays.MainMenuStops | cmds/webboot/webboot.go:363-368 | Escape shows the main menu again, Ctrl-d is fatal there |
| WebbootWays.ErrorIsHandled | cmds/webboot/webboot.go:372-387 | after an error: Ctrl-d exits, Escape leads to the main menu, any other error is displayed until a key that does not scroll |
| WebbootWays.LogStep | cmds/webboot/webboot.go:440-442 | the log is displayed until such a key, then the main menu |
| WebbootWays.DirEntriesConcat | cmds/webboot/webboot.go:193-206 | the entries of a directory stand in the order of its listing |
| WebbootWays.IsIsoIff | cmds/webboot/webboot.go:199 | images are the files whose name ends in .iso |
| WebbootWays.PickedIsNext | cmds/webboot/webboot.go:465-467 | the entry picked in a directory is the entry of the next round, and nothing else changes |
| WebbootWays.TypedIsNext | cmds/webboot/webboot.go:465-467 | so is the one whose number is typed |
| WebbootWays.DirectoryStops | cmds/webboot/webboot.go:467-478 | Ctrl-d exits from every directory with an entry, and one that cannot be read is an error |
| WebbootWays.WayDown | cmds/webboot/webboot.go:465-467 | picking d subdirectories by name from a directory leads to the directory of these names below it |
| WebbootWays.DownAndBack | cmds/webboot/webboot.go:465-479 | going down any names from cacheDir and as often Back ends at cacheDir, and once more Back at the main menu |
| WebbootWays.MirrorLink | cmds/webboot/webboot.go:286-310 | the link is that of the first mirror with the name of the mirror the user picked |
| WebbootWays.MirrorTyped | cmds/webboot/webboot.go:290-308 | typing the number of a mirror gives its link, if no mirror before it has its name |
| WebbootWays.DownloadsIff | cmds/webboot/webboot.go:128-181 | exactly when DownloadOption.exec returns an image, its label and its path: distro, link, directory, download and gate |
| WebbootWays.DownloadIsNext | cmds/webboot/webboot.go:454-459 | that image is the entry of the next round, with the distros fetched for this one |
| WebbootWays.DownloadStops | cmds/webboot/webboot.go:456-459 | Ctrl-d in the menu of distros exits, Escape leads to the main menu |
| WebbootWays.BootsIff | cmds/webboot/webboot.go:40-122 | exactly when an image is booted, and with which configuration: the one chosen among those of the distro, unless template, --dryrun or kexec prevent it; IsoPath is set exactly when one is chosen |
| WebbootWays.ImageStep | cmds/webboot/webboot.go:460-464 | after an image: booted, waiting, or an error that is handled |
| WebbootWays.Labels | cmds/webboot/types.go:58-132 | what each kind of entry is called in the menus |
| WebbootRuns.SetUpIsUsable | cmds/webboot/webboot.go:404-415 | the cache directory is empty or clean, whatever the flag and the devices, and empty exactly without flag and device |
| WebbootRuns.EveryRun | cmds/webboot/webboot.go:428-484 | in every run, at every head of the loop the entry is not nil and of one of the four kinds, every directory is cacheDir or below it, every image below it or in the temporary directory; the loop never ends normally |
| WebbootRuns.IsoAlwaysFails | cmds/webboot/webboot.go:37-123 | ISO.exec never returns nil |
| WebbootRuns.DownloadExpected | cmds/webboot/webboot.go:128-181 | DownloadOption.exec never returns nil and nil, and an image it returns lies where downloads go |
| WebbootRuns.DirEntriesAre | cmds/webboot/webboot.go:193-206 | the menu of a directory offers exactly its subdirectories and its .iso files, with their joined paths |
| WebbootRuns.EscapeGoesBack | cmds/webboot/webboot.go:470-471 | Escape is a way to go back from any directory with an entry |
| WebbootRuns.EmptyDirectory | cmds/webboot/webboot.go:472-477 | a directory without an entry ends in an error that is neither Back nor exit |
| WebbootRuns.BackStep | cmds/webboot/webboot.go:465-479 | Back leads one level up, and from cacheDir to the main menu |
| WebbootRuns.BackToTheTop | cmds/webboot/webboot.go:465-479 | from d levels down, d times Back lead to cacheDir and once more to the main menu |
| WebbootRuns.ChecksumGate | cmds/webboot/webboot.go:253-282 | for a supported distro: passed exactly with a matching checksum or a yes where the user is asked; a no is exactly what leads to the download menu; the errors are exactly a failed hash and a declined question |
| WebbootRuns.DownloadsAreChecked | cmds/webboot/webboot.go:173-180 | an image of a supported distro is returned only with a matching checksum or after the deciding Enter found 0 as the last mark |
| WebbootRuns.RefusalReturns | cmds/webboot/webboot.go:273-278 | after a refusal the next round is DownloadOption again |
| WebbootRuns.MirrorIsFirst | cmds/webboot/webboot.go:303-309 | the link is that of the first mirror with the name; none exactly if there is no such mirror |
| WebbootRuns.EveryImage | cmds/webboot/webboot.go:438-484 | in every run, an image the loop comes to was offered by the listing of the directory before, or was downloaded and passed the gate |
| WebbootRuns.DryRunNeverBoots | cmds/webboot/webboot.go:109-113 | with --dryrun no run ends in a boot |
| WebbootRuns.IsoPathOfRun | cmds/webboot/webboot.go:98-98 | in every run with a discovered cache an image is at mount point ++ rest, rest begins with "/Images/", and choosing a configuration sets IsoPath to rest if and only if the mount point does not occur in rest |
| CustomConfigs.LoadPlainIff | pkg/bootiso/bootiso.go:109-174 | without a table: the images are, config by config, label, command line and the bytes of kernel and initrd path, if and only if all can be read |
| CustomConfigs.LoadPlainFails | pkg/bootiso/bootiso.go:114-159 | and the error is exactly that of the first path that cannot be read |
| CustomConfigs.NeededAre | pkg/bootiso/bootiso.go:112-164 | in the order kernel, initrd, config by config |
| CustomConfigs.FirstOccurrencesAre | pkg/bootiso/bootiso.go:112-164 | the list of what is opened has every path that is needed, and none twice |
| CustomConfigs.FirstOccurrencesPrefix | pkg/bootiso/bootiso.go:112-164 | in the order of need: what is opened for the first paths is opened first |
| CustomConfigs.CopyOut | pkg/bootiso/bootiso.go:114-133 | a copied file holds the bytes of the path and is rewound; what was opened is known even after an error |
| CustomConfigs.Fetch | pkg/bootiso/bootiso.go:112-138 | kernel and initrd share one table: a path in it is not opened again, any other is opened and copied once |
| CustomConfigs.LoadImage | pkg/bootiso/bootiso.go:109-171 | one round of the loop keeps the table invariant, its image is made of the files of the table |
| CustomConfigs.CloseAll | pkg/bootiso/bootiso.go:91-96 | every file of the list is closed once |
| CustomConfigs.LoadCustomConfigs | pkg/bootiso/bootiso.go:71-175 | an error before the mount opens nothing; after it, refines the version without a table: same images or same first error, unless the cleanup fails and ends the program; each distinct path opened at most once, on success exactly once, in order of need; on every way out each opened file is closed exactly once and the ISO unmounted, if that does not fail |
| EventCapa.IndexInRange | pkg/wifi/wireless.go:1781-1789 | the index is below 6 exactly on 0x8B00..0x8BBF and 0x8BE0..0x8C3F, wrap-around included |
| EventCapa.WordIs | pkg/wifi/wireless.go:1787-1789 | 32 commands a word, six words, the private commands from the fourth on |
| EventCapa.BitIs | pkg/wifi/wireless.go:1790-1792 | the bit of a command is its distance from 0x8B00, or from 0x8BE0, modulo 32 |
| EventCapa.SharesBitIff | pkg/wifi/wireless.go:1781-1792 | two of these commands share a bit if and only if they are equal or 0x80 apart across the two ranges from 0x8B60 and 0x8BE0 |
| EventCapa.SetAllHas | pkg/wifi/wireless.go:1800-1802 | after any SETs from zero a bit is set if and only if a command that shares it was set |
| EventCapa.RegularSet | pkg/wifi/wireless.go:1781-1802 | on 0x8B00..0x8B5F and 0x8BE0..0x8C3F the words are exactly the set of the commands set |
| EventCapa.CollisionsExist | pkg/wifi/wireless.go:1781-1786 | outside them they are not: setting 0x8B60 sets 0x8BE0 |
| EventCapa.IwEventCapaSet | pkg/wifi/wireless.go:1800-1802 | changes the one word of the command and no other, as the set function says |
| EventCapa.IwEventCapaSetKernel | pkg/wifi/wireless.go:1804-1807 | leaves the array as four SETs would |
| EventCapa.KernelIsFourSets | pkg/wifi/wireless.go:1796-1807 | or-ing the two precomputed masks is setting 0x8B04, 0x8B06, 0x8B1A and 0x8B2A one by one |
| EventCapa.KernelNumbers | pkg/wifi/wireless.go:1796-1797 | the two masks are 0x04000050 and 0x00000400 |
| EventCapa.KernelSet | pkg/wifi/wireless.go:1796-1807 | from zero, exactly those four commands are then in the set |
| Network.EnterCredentials | cmds/webboot/network.go:147-167 | password, and identity unless the suite is PSK, in this order; otherwise the error is Back or exit |
| Network.ConnectWirelessNetwork | cmds/webboot/network.go:123-145 | unsupported suites fail, encrypted ones ask first, and Connect gets the ESSID followed by what was typed |
| Network.SelectRound | cmds/webboot/network.go:85-119 | one round: scan, network menu, attempt, and what follows each kind of error |
| Network.SelectWirelessNetwork | cmds/webboot/network.go:78-121 | the error of a worker that cannot be had; otherwise the outcome and the calls of Connect are those of the rounds up to the first that ends the loop |
| Network.RoundWithCall | cmds/webboot/network.go:107-120 | a round with everything typed calls Connect once with ESSID and credentials; nil exactly if there is a configuration and the link comes up, else the error is displayed and the scan repeated |
| Network.RoundWithoutCall | cmds/webboot/network.go:107-117 | an unsupported network is displayed as an error, Ctrl-d while typing ends the loop, Escape scans again, all without a call |
| Network.SuccessIsConnect | cmds/webboot/network.go:78-120 | in every run, nil is returned if and only if the last call of Connect returned nil, none before did; every call belongs to a round, with the network picked in it and the arguments its suite wants |
| Network.FailureIsARound | cmds/webboot/network.go:78-117 | an error is returned if and only if it is that of the worker, or the first round that does not scan again ends with it: a failed scan, the network menu left, or Ctrl-d while typing |
| Network.BackScansAgain | cmds/webboot/network.go:111-112 | Escape while typing scans again and nothing was tried |
| Network.ArgumentsMatch | pkg/wifi/iwl.go:214-228 | generateConfig gets 1, 2 or 3 arguments for NoEnc, WpaPsk and WpaEap and never the number it refuses |
| Network.EapFields | pkg/wifi/iwl.go:216-218 | despite the reordering of arguments, the written configuration read back line by line has ESSID, key management, identity and password in their own fields, if and only if none of them holds a newline |
| Network.PskFields | pkg/wifi/iwl.go:219-223 | for two arguments there is a configuration if and only if the passphrase has 8 to 63 bytes and the ESSID is not empty; read back it has the ESSID, the passphrase and the key derived from the passphrase with the ESSID in their fields, if and only if none of them holds a newline |
| Network.OpenFields | pkg/wifi/iwl.go:224-225 | for one argument it has the ESSID and no key management, if and only if the ESSID holds no newline |
| Network.EapLines | pkg/wifi/iwl.go:29-34 | the literal lines of the EAP configuration |
| Network.OpenLines | pkg/wifi/iwl.go:24-28 | the literal lines of the open configuration |
| Network.PskLines | pkg/wpa/passphrase/passphrase.go:18-23 | the literal lines of the PSK configuration |
| Network.EveryCall | cmds/webboot/network.go:123-167 | in every run, each call is for the network picked in its round, and its configuration read back has the scanned ESSID and what was typed in their fields, as the security of the network wants, with the exact conditions of the three lemmas above |

## Left out

- Drawing: widget sizes and titles, the log box and its scrolling, `countNewlines` (it only sizes a box), the calls of `ui.Render` outside `Progress`. Rows, texts, `first` and `last` are modelled.
- The `menus` channel, beyond the fact that `DisplayResult` sends the first line of its message.
- `Events.ReadKey`: an event without an ID would make the menus panic on `k[0:1]`; IDs are taken to be non-empty, as termui sends them.
- `Progress.Update` from outside on an animated bar, and a second `Close`: no caller does either (cmds/webboot/utils.go:34 updates a bar that is not animated, which has no second goroutine); the model has one animated bar and one `Close`. A tick's sleep is a step of its own, its length is not modelled.
- The streams of separate prompts are separate inputs, as each call of `ui.PollEvents` starts a new one; where one stream serves several prompts in a row its parts are given one by one.
- The text `handleError` displays after the error's first line, the log buffers and what `showLog` shows: whether the display is left does not depend on it (`Pager.LeftIffLeaves`).
- `setupNetwork` in the main loop: its error is only logged, so the loop does not depend on it. `selectNetworkInterface` would add only an easy member.
- Mounting, loop devices, kexec, wpa_supplicant, dhclient, HTTP and the parsing of distros.json: success, failure and contents are inputs. A download onto `.`, `..` or `/` fails, because these are directories that exist.
- `bootiso.VerifyChecksum`: the hash is an input, only the comparison counts. PBKDF2 is an arbitrary function; github.com/u-root/NiChrome/pkg/wpa/passphrase is not part of this model, the checks and the format of pkg/wpa/passphrase/passphrase.go stand for it.
- `inferIsoType`, `validURL` and the sorting of labels in cmds/webboot/utils.go are inputs: any type, any check, any order.
- The grub and syslinux parsers behind `ParseConfigFromISO`, which live in another repository, and `BootFromPmem`.
- The text of `KernelParams` templates: only whether they fail.
- Error messages keep what tells them apart; stack traces and values inside them are dropped.
- `CustomConfigs.LoadCustomConfigs`: a path stands for its join with the mount directory; the error of closing a file, which is only logged, and the directories, loop devices and temporary files left over after an error are not modelled.
- `EventCapa.IwEventCapaSet`: requires the index to be inside the slice, as the code does; outside it panics.
- `WebbootRuns.IsoPathOfRun`: the mount point is an absolute clean path below the root, as `TryMount` is given one.
- `Webboot.Program.Round`: `connected`, the network flag and progress bars inside a round are not modelled, they do not change the entry.
- General regular expressions: only the five of pkg/wifi/iwl.go.
- The rest of pkg/wifi/wireless.go, pkg/wifi/native.go, pkg/wifi/stub.go and pkg/dhclient/dhclient.go: constants, layouts, stubs and plumbing.
