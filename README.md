# Arch-Installer core, modelled in Dafny

A model of the logic of the Arch Linux installer in InfinitePain/Arch-Installer, with its properties proved.
The installer is a C++ ncurses program that walks a user through installing Arch Linux in three steps.
The model covers the parts that decide things. It leaves out the parts that only talk to the terminal, the kernel or child processes.

- **`Compositor`** (`compositor.dfy`) models the `Renderer` layer table.
  - The class `Compositor.Renderer` keeps the vector of `LayerProp` records (`layers`), the paint order (`orderVector`) and the running flag.
  - `CreateLayer`, `CreateSubLayer`, `ChangeLayerOrder` and `DestroyLayer` change them in place.
  - `ChangeLayerOrder` has its renumbering loop.
  - `DestroyLayer` recurses down the whole child chain first. On the way back each frame erases its layer by its old handle.
  - Each method is proved against a function on the value `LayerTable`.
  - `WINDOW*` is an opaque `Window` token. `newwin`/`derwin` are an `Option<Window>` parameter, with `None` for the null that makes the source throw `bad_alloc`.
- **`SelectableList`** (`selectable_list.dfy`) models `Menu`.
  - The ncurses menu is a list of item names, one mark per item, a current index kept in range, and `menuSize`, the number of items the posted menu was built from.
  - The class keeps the edge-triggered `selected` latch, the `togglable` mode and the mark string.
  - `Init` runs the `getline` loop. `OnEvent` decodes the 10 key bytes. `GetSelected` accumulates its output in a loop.
- **`Cli`** (`cli.dfy`) models the text helpers of `CLI.h`:
  - the whitespace tokenizer `_ParseArguments`;
  - `_IsStepLine`;
  - `ParseCommands`, as a loop over the lines of an optional file;
  - `ExtractDiskOrPartitionName`;
  - the flag arithmetic of `_SetRawMode` on 32-bit flag words, with the Linux values of the flags;
  - the directory step of `_GetExeDir`.
- **`Entry`** (`entry.dfy`) models `main.cpp`:
  - `parseArguments`: help before version before install, `-d` anywhere, and the first `-s` with its comma-separated list;
  - the step loop of `main`: `std::stoi`, the range check, `invalid_argument`, and the first exception ending the loop with status 1.
  - an exception thrown by `Installer::Init`, which `main` does not catch, ends the program in `std::terminate`.
- **`Install`** (`install.dfy`) models the decisions of `Installer`.
  - Everything the installer does outside its memory is an `Effect`, appended to a trace in order. Examples are a command run, an interactive command, a file write, a listing captured, input paused or resumed, a log line, a trap, or a wait for Enter.
  - The class `Install.Installer` holds `m_Debug`, `m_DebuggerPresent`, `m_Keymap`, `m_Timezone` and the trace.
  - Its methods are proved against `…Effects` functions. Those functions return the effects and the exception a call lets through (`Performed`).
- **`Text`** (`text.dfy`) holds the C++ library behaviour the others rely on. It is written once and shared:
  - `>>` word extraction (`Words`);
  - `std::getline` with a delimiter (`Split`);
  - `std::string::find` (`Find`);
  - `std::stoi` with its two exceptions and the 32-bit `int` range (`Stoi`);
  - `std::to_string`.
- **`Wrappers`** (`wrappers.dfy`) holds `Option`, `Result` and `StdError`. `StdError` stands for the exception types the source throws: `invalid_argument`, `out_of_range`, `runtime_error` with its message, and a plain `std::exception`.

Inputs the program reads from the outside world become parameters:

- the contents of `/proc/self/status` (a sequence of lines);
- the `Commands` file (an `Option<string>`, `None` when it cannot be opened);
- the target of `/proc/self/exe`;
- the output of each listing command;
- the user's menu choices (`Install.Answers`);
- which external calls throw: for the installer a `fails` map keyed by the call, and for the step loop of `main` a map keyed by the loop turn (so `-s 1,1` can complete step 1 on the first turn and throw on the second);
- whether the renderer could start.

Where the code and its documentation disagree, the model follows the code:

- `Menu::Init` does not skip empty lines: every `getline` line goes to `new_item`, as the C string `strcpy` copies, so a line is cut at its first NUL character. Whether a line becomes an item is `new_item`'s decision, the `itemOk` parameter of `SelectableList.Menu.Init`. The curses `new_item` refuses an empty name, and a refused line makes `Init` return false.
- A partition line made only of tree characters makes `ExtractDiskOrPartitionName` throw `out_of_range`.
- A `TracerPid:` line without a tab is handed whole to `std::stoi`, which throws `invalid_argument`.
- The listing commands run even in debug mode. Only `_RunCommand`, `_RunInteractiveCommand` and `_WriteToFile` are gated.

## Model

| member | source | states |
|---|---|---|
| Compositor.Renderer.constructor | src/Renderer.h:26-28 | A new renderer has no layers, an empty paint order and is running; that table is well formed, ranked and in creation order |
| Compositor.Renderer.GetWindowPtr | src/Renderer.h:42-47 | Null (`None`) exactly for a handle below 0 or at or past the layer count; otherwise that layer's window |
| Compositor.Renderer.GetLayerOrder | src/Renderer.h:130-132 | On a well-formed, ranked table the returned rank r is in 1..n and the paint order holds the handle at position r-1 |
| Compositor.Renderer.OnUpdate | src/Renderer.h:81-85 | Every listed layer's window is refreshed once, in paint order; on a ranked table the i-th refreshed window belongs to the layer of rank i+1 |
| Compositor.Renderer.CreateLayer | src/Renderer.h:87-95 | Window failure throws `bad_alloc` and changes nothing. Otherwise the returned handle is the old layer count, one record is appended with rank = new count and no links, and the handle is appended to the paint order. Well-formedness, ranking and creation order are all preserved |
| Compositor.Renderer.CreateSubLayer | src/Renderer.h:97-113 | Returns -1 and changes nothing when the parent is out of range, already has a child or is itself a child. Window failure throws `bad_alloc` and changes nothing. Otherwise it appends the layer with `parent` set and sets the parent's `child`, so depth stays at most 1. Invariants are preserved |
| Compositor.Renderer.ChangeLayerOrder | src/Renderer.h:49-79 | Accepts any handle while only one layer exists, since the source returns before indexing; otherwise the handle must name a layer, and the paint order's handles must be in range only when a move happens. The new table is `OrderChanged`: untouched for a single layer, an equal clamped rank or an unlisted handle, otherwise the move and the renumbering. Well-formedness and ranking are kept |
| Compositor.Renderer.RewriteRanks | src/Renderer.h:76-78 | The renumbering loop: the layer at paint position j gets rank j+1, and nothing else changes |
| Compositor.Renderer.DestroyLayer | src/Renderer.h:115-128 | The new table is `Destroyed` of the old one, computed as written: the whole child chain first, then unlink the parent, erase the record and drop the handle, each frame by its old handle; the recursion ends because the chain below the child is shorter |
| Compositor.Renderer.EraseLayer | src/Renderer.h:122-127 | One frame after the child is gone: the new table is `Erase` of the old one (parent unlinked, record erased at its index, first occurrence of the handle dropped from the paint order) |
| Compositor.Renderer.StopRenderer | src/Renderer.h:134-137 | Only the running flag changes, to false |
| Compositor.CreationOrderIsRanked | src/Renderer.h:91-93 | A table in creation order (paint order 0..n-1, layer i of rank i+1) is ranked, lists no handle twice and lists every layer |
| Compositor.WithLayerKeepsInvariants | src/Renderer.h:88-94 | Appending a layer of rank n+1 keeps well-formedness and ranking, and keeps creation order |
| Compositor.WithSubLayerKeepsInvariants | src/Renderer.h:104-112 | Appending a sub-layer keeps well-formedness (the links agree both ways), ranking and creation order; the parent now points at the new layer |
| Compositor.RankIsPlace | src/Renderer.h:13 | In a well-formed, ranked table a layer's rank is its 1-based position in the paint order |
| Compositor.Clamp | src/Renderer.h:54-55 | The clamped rank is at least 1 and at most the paint-order size; a rank already in range is kept; no rank in range is nearer to the request |
| Compositor.RemoveFirst | src/Renderer.h:63-69 | Erasing the found handle removes one copy of it and keeps every other handle; a missing handle leaves the vector unchanged |
| Compositor.Reordered | src/Renderer.h:63-73 | Erase then insert is a permutation with the handle at position k-1, and removing it again gives the old vector less the handle, so the others keep their relative order |
| Compositor.Reranked | src/Renderer.h:76-78 | The renumbering changes only rank fields |
| Compositor.RerankedRanks | src/Renderer.h:76-78 | With no handle listed twice, every visited layer's rank is its position plus one |
| Compositor.RerankedUntouched | src/Renderer.h:76-78 | A layer the loop does not visit keeps its record |
| Compositor.ReorderedKeepsWellFormed | src/Renderer.h:63-78 | The move lists the same handles, keeps them in range, and keeps a well-formed table well formed |
| Compositor.OrderChangedKeepsInvariants | src/Renderer.h:49-79 | On the early-return paths the table is unchanged. The paint order after `ChangeLayerOrder` is a permutation of the old one. When a move happens the handle sits at the clamped rank and the others keep their order. A well-formed table stays well formed and every listed layer's rank equals its 1-based position |
| Compositor.RemoveAtFacts | src/Renderer.h:69 | `erase(begin()+i)` removes exactly that element and keeps distinctness |
| Compositor.Destroyed | src/Renderer.h:115-128 | With one layer nothing changes; otherwise exactly the layers of the child chain below the handle go: both vectors shrink by the chain's length and the paint order loses exactly the chain's handles, as a multiset |
| Compositor.Erase | src/Renderer.h:122-127 | One record and one handle go; the paint order loses exactly that handle, as a multiset, and a paint order without repeats keeps none and no longer holds the handle |
| Compositor.EraseRecords | src/Renderer.h:122-126 | Records below the erased index keep their index, records above move down one, and the only record that changes is the old parent's, whose child link is cleared |
| Compositor.ChildChain | src/Renderer.h:119-121 | The layers the recursion visits start at the handle, stay inside the vector, follow the child links and end at a layer without a child |
| Compositor.EraseChain | src/Renderer.h:119-127 | Erasing a chain from its last layer back to its first removes as many records and handles as the chain has layers, and exactly the chain's handles from the paint order |
| Compositor.DestroyedLeaf | src/Renderer.h:115-127 | A layer without a child can be destroyed exactly when its one erase frame is defined, and the result is that frame |
| Compositor.DestroyedRecurses | src/Renderer.h:119-127 | A layer with a child is destroyed by destroying the child first, then erasing the layer by its old handle; the child's chain is shorter |
| Compositor.DestroyTwoDeep | src/Renderer.h:115-127 | A layer whose child has no child is destroyed by erasing the child and then the layer |
| Compositor.DestroyLastKeepsWellFormed | src/Renderer.h:115-127 | Destroying the layer created last, when it has no sub-layer, keeps a well-formed table well formed |
| Compositor.EraseLastKeepsOrder | src/Renderer.h:127 | Dropping the last handle leaves a paint order without repeats that lists every remaining layer |
| Compositor.EraseLastKeepsLinks | src/Renderer.h:122-126 | Erasing the last record, which has no child, keeps every other link pointing back |
| Compositor.ThreeTopsDestroyFirst | src/Renderer.h:126-127 | Destroying layer 0 of three top-level layers leaves handles [1, 2] over a two-record vector |
| Compositor.ChangeOrderAfterDestroy | src/Renderer.h:49-66 | After that destroy the paint order holds handle 2 over two records, yet `ChangeLayerOrder(0, 1)` is defined and changes nothing, because handle 0 is no longer in the paint order |
| Compositor.DestroyBreaksPaintOrder | src/Renderer.h:126-127 | After that destroy the table is no longer well formed or ranked: the erase shifted the records but not the handles |
| Compositor.DestroyCanRemoveLastLayer | src/Renderer.h:116-127 | Destroying a parent of one child from a two-layer table erases both, although destroying the only layer is refused |
| SelectableList.Classify | src/Menu.h:83-103 | Enter exactly for a first byte of `\n` or `\r`; toggle exactly for a space in togglable mode; a move exactly for ESC `[` followed by `A`, `B`, `5` or `6` |
| SelectableList.ClassifyEncode | src/Menu.h:85-103 | Classifying the bytes a terminal sends for an action gives that action back |
| SelectableList.SpaceIgnoredInSingleMode | src/Menu.h:97-100 | A space toggles only in togglable mode and is ignored in single mode |
| SelectableList.Navigate | src/Menu.h:85-96 | The current index stays in range; up and page-up never move down, down and page-down never move up, other keys keep it |
| SelectableList.NavigateInverse | src/Menu.h:85-90 | Up undoes Down and Down undoes Up away from the ends |
| SelectableList.PageIsRepeatedStep | src/Menu.h:91-96 | A page move is `rows` single moves in the same direction |
| SelectableList.AcceptedPrefix | src/Menu.h:28-36 | The items made are the names up to the first one `new_item` refuses, in input order |
| SelectableList.CNameCutsAtNul | src/Menu.h:30-31 | The name `strcpy` leaves for `new_item` is the line up to its first NUL, and the whole line when it has none |
| SelectableList.CNames | src/Menu.h:28-31 | One C-string name per `getline` line, in order |
| SelectableList.Chosen | src/Menu.h:116-123 | The marked names, a sub-list of the items |
| SelectableList.ChosenExtremes | src/Menu.h:116-123 | All items marked gives every name in order; none marked gives none |
| SelectableList.ChosenReadBack | src/Menu.h:116-123 | Splitting the toggle-mode output into words gives back exactly the marked names in item order |
| SelectableList.Cleared | src/Menu.h:172-177 | Switching on single-value mode resets the marks of the menu's items and keeps the others |
| SelectableList.Menu.constructor | src/Menu.h:16-19 | A new menu has no items and no menu, is in single mode with mark " > " and the latch clear |
| SelectableList.Menu.Init | src/Menu.h:22-68 | Hands the C string of every `getline` line (cut at its first NUL, empty ones included) to `new_item` (the `itemOk` parameter) and keeps the items made until one is refused; returns false with no new menu when an item or the menu cannot be made, true with a menu over all items and the current item first otherwise |
| SelectableList.Menu.MakeItems | src/Menu.h:28-36 | The getline loop, given the lines' C strings, appends exactly the accepted prefix of those names, each unmarked, and reports whether every line was accepted |
| SelectableList.Menu.SetMenuOpts | src/Menu.h:167-180 | With a menu, single mode resets every mark; nothing else changes |
| SelectableList.Menu.IsSelected | src/Menu.h:70-76 | Returns the latch and clears it, changing nothing else |
| SelectableList.Menu.OnEvent | src/Menu.h:78-104 | Once the latch is set nothing changes; otherwise the latch is set only by Enter, a move changes only the current item, and a space in togglable mode flips only the current item's mark |
| SelectableList.Menu.GetSelected | src/Menu.h:106-125 | "" without a menu; the current item's name in single mode; in toggle mode the marked names in item order, each followed by one space |
| SelectableList.Menu.TogglableItems | src/Menu.h:131-134 | Sets the mode; leaving togglable mode with a menu resets every mark |
| SelectableList.Menu.SetMenuMark | src/Menu.h:136-139 | Stores the mark; re-applying the options resets marks in single mode |
| SelectableList.ReadTwice | src/Menu.h:70-76 | Two consecutive `IsSelected` calls never both return true |
| SelectableList.KeysAfterConfirm | src/Menu.h:80-82 | After confirmation no sequence of keys changes the current item or the marks, and the latch stays set |
| Cli.ParseArguments | src/CLI.h:21-31 | The `>>` loop returns exactly `Words(args)` |
| Text.Words | src/CLI.h:26-28 | Every token is non-empty and free of whitespace |
| Text.WordsConcat | src/CLI.h:21-31 | The tokens put together are the input with all whitespace removed |
| Text.WordsOfJoinSpace | src/CLI.h:21-31 | Round trip: tokenizing a single-space join of tokens gives the tokens back |
| Text.WordsOfSpaceTerminated | src/Menu.h:116-123 | Round trip: tokenizing tokens that are each followed by a space gives them back |
| Text.WordsAfterSpaceTerminated | src/Installer.h:284-290 | Space-terminated tokens come out first, in order, whatever follows them |
| Text.WordsSkipSpace | src/CLI.h:26 | Leading whitespace does not change the tokens |
| Text.WordsAllSpace | src/CLI.h:26 | A blank string yields no token |
| Text.WordsCons | src/CLI.h:26 | A token followed by whitespace or the end is extracted whole |
| Text.WordsStep | src/CLI.h:26 | One extraction takes the leading run of non-whitespace |
| Text.Split | src/main.cpp:54-56 | No piece contains the delimiter |
| Text.SplitTerminated | src/Menu.h:28 | Round trip: `getline` reads back pieces each written with a delimiter after them |
| Text.SplitJoin | src/main.cpp:54-56 | Round trip: `getline` reads back a delimiter-separated list whose last piece is non-empty |
| Text.SplitFirst | src/main.cpp:54 | The first piece ends at the first delimiter |
| Text.SplitSingle | src/main.cpp:54 | A non-empty piece without the delimiter is read back whole |
| Text.IndexOf | src/main.cpp:14 | `std::find` gives the first position of the value, or the end exactly when it is absent |
| Text.Find | src/CLI.h:241 | `find` gives the first position where the pattern occurs, `npos` only when it occurs nowhere |
| Text.FindAtStart | src/CLI.h:241 | `find(p) == 0` exactly when the string starts with p |
| Text.NatToString | src/CLI.h:241 | `std::to_string` of n is a non-empty numeral whose value is n |
| Text.ScanInt | src/CLI.h:222 | A successful extraction stops before a digit |
| Text.ScanIntShape | src/CLI.h:222 | Every successful extraction reads whitespace, an optional sign and a numeral, with the signed value of the numeral |
| Text.ScanIntOfDigits | src/CLI.h:222 | A numeral after whitespace is read as its value |
| Text.ScanIntOfMinusDigits | src/CLI.h:222 | A minus sign and a numeral after whitespace are read as the negated value |
| Text.ScanIntOfPlusDigits | src/CLI.h:222 | A plus sign and a numeral after whitespace are read as the value |
| Text.ScanIntToString | src/main.cpp:86 | The text of `std::to_string(n)` after whitespace is read back as n |
| Text.Stoi | src/main.cpp:86 | A result is a 32-bit `int`; failures are `invalid_argument` (exactly when no number can be read) or `out_of_range` |
| Text.StoiOfToString | src/main.cpp:86 | Round trip: `stoi(to_string(n)) == n` for every `int` |
| Text.StoiPadded | src/Installer.h:96 | Leading whitespace and text after the number do not change the result |
| Cli.StepLineShape | src/CLI.h:215-224 | Every step line is '#', whitespace, an optional sign, a positive numeral, whitespace, then '.' |
| Cli.StepLineOfShape | src/CLI.h:215-224 | Every line of that shape is a step line (the other direction) |
| Cli.HeaderIsStepLine | src/CLI.h:241 | The header "# n." of a positive step number is a step line, whatever follows it |
| Cli.NonPositiveHeaderIsNoStepLine | src/CLI.h:223 | No header of a step number below one is a step line |
| Cli.OpensStepIsPrefix | src/CLI.h:236-243 | A line opens step n exactly when it is a step line that starts with "# n." |
| Cli.SplitCommand | src/CLI.h:252-258 | A captured line becomes its first word and the rest of the line; a blank line gives two empty strings |
| Cli.SplitCommandJoin | src/CLI.h:252-259 | Round trip: a word, one space and a one-line remainder split back into the two |
| Cli.ParseCommands | src/CLI.h:226-269 | An unopenable file gives no commands; otherwise the commands are those of the file's lines |
| Cli.ReadStep | src/CLI.h:234-261 | The getline loop with its capture flag computes `Section` of the lines |
| Cli.SectionIsStepBlock | src/CLI.h:234-261 | The commands are those of the non-empty, non-comment lines after the first header of step n up to the next step line, and none without such a header |
| Cli.SectionWhileCapturing | src/CLI.h:236-240 | While capturing, the next step line ends the section |
| Cli.Captured | src/CLI.h:247-260 | At most one command per line of the block |
| Cli.FirstWhere | src/CLI.h:234-245 | The first line satisfying the test, or the end when there is none |
| Cli.ExtractDiskOrPartitionName | src/CLI.h:271-289 | Fails with `out_of_range` exactly for a partition line made only of tree characters; a name never contains a space, and a partition name does not start with a tree character |
| Cli.PartitionName | src/CLI.h:273-280 | A partition line gives the name after its tree prefix, up to the next space or the end |
| Cli.DiskName | src/CLI.h:282-288 | A disk line gives its first word |
| Cli.BlankLineName | src/CLI.h:282-288 | A blank line gives "" |
| Cli.TreeRun | src/CLI.h:275 | The length of the leading run of '\|', '`' and '-' |
| Cli.ClearFlags | src/CLI.h:98-102 | `flags &= ~mask` clears the mask's bits and keeps every other bit |
| Cli.EightBitControl | src/CLI.h:100-101 | The character-size and parity bits become CS8, every other control bit is kept |
| Cli.RawMode | src/CLI.h:95-102 | The result is raw: ECHO, ICANON, ISIG, IEXTEN off in lflag; BRKINT, ICRNL, INPCK, ISTRIP, IXON off in iflag; CS8 and no parity in cflag; OPOST off; every bit outside those masks and the control characters kept |
| Cli.ClearFlagsOfCleared | src/CLI.h:98-102 | Clearing bits already clear changes nothing |
| Cli.EightBitControlOfEightBit | src/CLI.h:100-101 | Control flags already 8-bit without parity are kept |
| Cli.RawModeOfRaw | src/CLI.h:95-102 | Raw settings are a fixed point |
| Cli.RawModeIdempotent | src/CLI.h:95-102 | Setting raw mode twice is setting it once |
| Cli.LastSeparator | src/CLI.h:195 | `find_last_of("/\\")` gives the last separator, `npos` only without one |
| Cli.ExeDir | src/CLI.h:191-197 | "" when readlink fails; otherwise a prefix of the path |
| Cli.ExeDirOfPath | src/CLI.h:195-196 | The directory is everything before the last separator |
| Cli.ExeDirOfBareName | src/CLI.h:196 | A path without a separator has no directory |
| Entry.StepsOption | src/main.cpp:50-51 | Present exactly when the first "-s" has an argument after it, and then it is that argument |
| Entry.ParseArguments | src/main.cpp:9-62 | Help exactly when "-h" is among the options; version exactly when "-v" is and "-h" is not; debug mode exactly when "-d" is anywhere; the steps are the comma-split value of the first "-s", or ["1","2","3"] without one |
| Entry.ReadList | src/main.cpp:52-56 | The getline loop returns the comma-separated pieces in order |
| Entry.StepListRoundTrip | src/main.cpp:50-56 | A list written with `-s` as `n1,n2,…` is read back as the same pieces |
| Entry.DispatchFrom | src/main.cpp:84-98 | From a given loop turn on: every step entered is in 1..3; at most one per piece; without an exception every piece was entered |
| Entry.DispatchThrowsLast | src/main.cpp:85-93 | No turn before the last one entered threw a step's exception; with no exception, no turn entered did |
| Entry.Dispatch | src/main.cpp:84-98 | The loop from its first turn: every step entered is in 1..3; at most one per piece; without an exception every piece was entered; only the last turn can have thrown |
| Entry.RunSteps | src/main.cpp:84-98 | The loop computes `Dispatch` of the pieces |
| Entry.DispatchTurn | src/main.cpp:85-93 | One turn: a conversion failure or a number outside 1..3 ends the loop with that exception; a throwing step ends it with its exception; otherwise the loop goes on |
| Entry.ExitStatus | src/main.cpp:95-99 | 0 exactly when no exception reached `main`, otherwise 1 |
| Entry.Execute | src/main.cpp:64-100 | Help or version exits 0 with no step; an exception thrown by `Init`'s debugger check (outside its try, and `main` calls `Init` outside its own) ends in `std::terminate`; an installer that reports failure exits 1 with no step; otherwise the debug flag is passed on and the loop decides the steps and the status |
| Entry.DispatchSucceeds | src/main.cpp:84-99 | No exception exactly when, on every turn, the piece converts to a number in 1..3 and the step entered on that turn does not throw |
| Entry.DispatchFollowsList | src/main.cpp:85-88 | The steps run are the numbers of the pieces, in list order |
| Entry.DispatchRanAt | src/main.cpp:85-88 | The i-th step run is the number of the i-th piece |
| Entry.FailingStepIsLast | src/main.cpp:88-98 | When the step entered on the last turn `last` threw, its exception is the loop's |
| Entry.RepeatedStepCanFailLater | src/main.cpp:85-93 | With `-s 1,1`, step 1 can complete on the first turn and throw on the second; the loop then has run step 1 twice and ends with that exception |
| Entry.DefaultRunsAllSteps | src/main.cpp:58 | Without `-s`, steps 1, 2 and 3 run in order when none of the three turns throws |
| Entry.StepsOptionRunsThoseSteps | src/main.cpp:50-93 | `-s` with a comma-joined list of step numbers runs exactly those steps in that order when no turn throws |
| Entry.DispatchNumerals | src/main.cpp:85-93 | The numerals of valid step numbers, on turns that do not throw, run exactly those steps |
| Entry.Numerals | src/main.cpp:86 | One numeral per step number, as `std::to_string` writes it |
| Entry.NumeralOfStep | src/main.cpp:86 | A step number is written as its one digit |
| Install.LastIndexOf | src/Installer.h:96 | `find_last_of` gives the last position of the character, or npos exactly when it is absent |
| Install.TracerValue | src/Installer.h:96 | The value after the last tab converted by `stoi`; a failure is `invalid_argument` or `out_of_range` |
| Install.TracerValueOfPid | src/Installer.h:95-96 | The kernel's `TracerPid:\t<pid>` line reports a debugger exactly when the pid is not 0 |
| Install.TracerLineWithoutTab | src/Installer.h:96 | A `TracerPid:` line without a tab makes `stoi` throw `invalid_argument` |
| Install.TracerStatus | src/Installer.h:91-100 | Without a `TracerPid:` line there is no debugger |
| Install.TracerStatusFirstLine | src/Installer.h:94-97 | The first line containing `TracerPid:` decides; earlier and later lines do not matter |
| Install.IsDebuggerPresent | src/Installer.h:91-100 | The loop over the status lines computes `TracerStatus` |
| Install.DebugStopEffects | src/Installer.h:140-148 | A trap exactly when a debugger is present, a wait for Enter exactly when none is; nothing on the system changes |
| Install.DryRunEffects | src/Installer.h:103-108 | The renderer is stopped first, the dry-run text is logged, the debug stop comes last, and nothing changes |
| Install.RunCommandEffects | src/Installer.h:102-112 | Debug mode: a dry run that changes nothing and throws nothing; otherwise the command runs |
| Install.RunInteractiveEffects | src/Installer.h:114-126 | Debug mode: a dry run that changes nothing. Otherwise input is paused, then the program runs, and input is resumed as the last effect exactly when the program does not throw |
| Install.WriteToFileEffects | src/Installer.h:128-138 | Debug mode: a dry run that changes nothing; otherwise the content is written to the file |
| Install.Then | src/Installer.h:47-52 | A part runs only if the one before it did not throw; the effects are concatenated |
| Install.ThenChangesNothing | src/Installer.h:47-52 | A sequence of parts that change nothing changes nothing |
| Install.Listing | src/Installer.h:156-159 | The listing is captured. An empty output or a throwing capture aborts the step, with `runtime_error` and the step's message for an empty output, before any menu is built |
| Install.Installer.ReadListing | src/Installer.h:156-159 | The listing and its check append `Listing`'s effects and throw its exception |
| Install.KBLayoutDryRun | src/Installer.h:150-178 | In debug mode `_KBLayout` changes nothing |
| Install.SystemClockDryRun | src/Installer.h:180-207 | In debug mode `_SystemClock` changes nothing |
| Install.PartitionDryRun | src/Installer.h:232-242 | In debug mode the `cfdisk` and shell part changes nothing |
| Install.PartitionDisksDryRun | src/Installer.h:209-243 | In debug mode `_PartitionDisks` changes nothing |
| Install.Step1DryRun | src/Installer.h:47-58 | In debug mode step 1 runs only the listing captures: no gated command, interactive program or file write |
| Install.InstallSelectedDryRun | src/Installer.h:296-300 | In debug mode the `pacman` and `exit` calls change nothing |
| Install.Step2DryRun | src/Installer.h:60-70 | In debug mode step 2 changes nothing |
| Install.EmptyKeymapList | src/Installer.h:156-159 | An empty keymap listing ends step 1 right after the capture: logged, debug stop, rethrown |
| Install.EmptyTimezoneList | src/Installer.h:186-189 | An empty time-zone listing ends step 1 right after the keyboard step (which loads the keymap only outside debug mode), before any clock change, with the catch block's log, debugger stop and rethrow |
| Install.EmptyDiskList | src/Installer.h:215-218 | An empty disk listing ends step 1 before `cfdisk` or the shell can run |
| Install.Erase | src/Installer.h:293 | `erase(pos, n)` removes at most n characters from pos and keeps the prefix |
| Install.EraseFirst | src/Installer.h:293 | Fails with `out_of_range` exactly when the name does not occur |
| Install.EraseAll | src/Installer.h:292-294 | The erase loop fails only with `out_of_range` and never lengthens the list |
| Install.NewlinesToSpaces | src/Installer.h:296 | Same length, no newline left, every other character kept |
| Install.NewlinesToSpacesOfLines | src/Installer.h:296 | A list of lines reads as the same names each followed by a space |
| Install.PackageArgs | src/Installer.h:282-298 | The `pacman` arguments as written start with "-S "; the only failure is `out_of_range` |
| Install.RewritePackages | src/Installer.h:282-298 | The tokenizing, erase and replace loops compute `PackageArgs` |
| Install.EraseSelected | src/Installer.h:292-294 | The erase loop computes `EraseAll` |
| Install.ReplaceNewlines | src/Installer.h:296 | The replace loop computes `NewlinesToSpaces` |
| Install.EraseOwnLine | src/Installer.h:293 | A name found at the start of its own line is erased with its newline and nothing else |
| Install.NothingSelected | src/Installer.h:282-298 | With nothing toggled the rewrite as written equals the intended one |
| Install.Unselected | src/Installer.h:292-294 | The lines kept are exactly those not selected |
| Install.RemovePackagesWords | src/Installer.h:282-298 | The intended rewrite passes `-S` and exactly the unselected names, in list order |
| Install.LongerNameFirst | src/Installer.h:292-294 | For any lines `before`, `x-y`, `after` where no line of `before` contains `x`, deselecting `x` erases `x-` from the longer name: `pacman` gets `y` in its place and every line of `after` unchanged. The intended rewrite keeps `x-y` and drops the lines of `after` equal to `x` |
| Install.LongerNameThenName | src/Installer.h:292-294 | The same for a list ending in `x-y`, `x`, `z`: as written `pacman` gets `y`, `x`, `z`; intended, `x-y`, `z` |
| Install.ShippedLinesLackName | src/Installer.h:256-264 | None of the 29 shipped names before `nautilus-share` contains `nautilus` |
| Install.SubstringErase | src/Installer.h:256-265 | With the shipped list `PackageList` itself, deselecting `nautilus` asks `pacman` for the first 29 names, `share`, `nautilus` and `gvfs-smb`; the intended rewrite asks for the first 29 names, `nautilus-share` and `gvfs-smb` |
| Install.Catch | src/Installer.h:53-57 | No exception: nothing added. Otherwise it logs the exception, ends with the debug stop and passes on a plain `std::exception` |
| Install.CatchRethrow | src/Installer.h:53-57 | The same block with `throw;` passes on the original exception |
| Install.CatchSlices | src/Installer.h:56 | `throw e;` turns `runtime_error("Failed to get disks")` into a plain `std::exception`; `throw;` keeps it |
| Install.CatchRethrowSameEffects | src/Installer.h:53-57 | Both blocks log and stop the same way; only the exception passed on differs |
| Install.CatchChangesNothing | src/Installer.h:53-57 | The catch block changes nothing on the system |
| Install.UseraddWithoutUser | src/Installer.h:367-370 | As written, `useradd` receives `-m -G wheel` and no user name, whatever was typed |
| Install.UseraddNamesUser | src/Installer.h:367-370 | As intended, `useradd` receives the options and then the name that was read |
| Install.Installer.constructor | src/Installer.h:12 | Not in debug mode, no debugger seen, empty keymap and time zone, empty trace |
| Install.Installer.Init | src/Installer.h:14-41 | Renderer failure returns false before the status is read. Otherwise the debugger flag is `TracerStatus` of the status lines, and a conversion failure propagates |
| Install.Installer.DebugMode | src/Installer.h:43-45 | Sets the debug flag and nothing else |
| Install.Installer.DebugStop | src/Installer.h:140-148 | Appends `DebugStopEffects` |
| Install.Installer.DryRun | src/Installer.h:103-108 | Appends `DryRunEffects` |
| Install.Installer.RunCommand | src/Installer.h:102-112 | Appends `RunCommandEffects` and throws its exception |
| Install.Installer.RunInteractiveCommand | src/Installer.h:114-126 | Appends `RunInteractiveEffects` and throws its exception |
| Install.Installer.WriteToFile | src/Installer.h:128-138 | Appends `WriteToFileEffects` and throws its exception |
| Install.Installer.KBLayout | src/Installer.h:150-178 | Appends `_KBLayout`'s effects; the keymap is the one picked exactly when the listing succeeded |
| Install.Installer.SystemClock | src/Installer.h:180-207 | Appends `_SystemClock`'s effects; the time zone is the one picked exactly when the listing succeeded |
| Install.Installer.PartitionDisks | src/Installer.h:209-243 | Appends `_PartitionDisks`'s effects |
| Install.Installer.Partition | src/Installer.h:232-242 | `cfdisk` on `/dev/` plus the picked name, the notice, then a shell |
| Install.Installer.Catch | src/Installer.h:53-57 | Logs, stops and passes on a plain exception when something was thrown; appends nothing otherwise |
| Install.Installer.Step1 | src/Installer.h:47-58 | Appends `Step1Effects` and throws its exception. `keymap` becomes the chosen keymap once the keymap listing has not thrown, and `timezone` the chosen zone once the keyboard step and the zone listing have not thrown; otherwise each keeps its old value |
| Install.Installer.SelectMirrors | src/Installer.h:245-248 | Runs `reflector` through the gate |
| Install.Installer.InstallPackages | src/Installer.h:250-301 | `pacstrap`, `arch-chroot`, then `pacman` on the rewritten list and `exit`, each through the gate |
| Install.Installer.InstallSelected | src/Installer.h:282-300 | A rewrite failure throws before `pacman`; otherwise `pacman -S …` interactively, then `exit` |
| Install.Installer.Step2 | src/Installer.h:60-70 | Appends `Step2Effects` and throws its exception |

## Left out

- Drawing, terminal and process work is not modelled:
  - the ncurses calls (`initscr`, `newwin`, `wrefresh`, `box`, `post_menu`, `endwin`);
  - `CLI::RunCommand` and `CLI::RunInteractiveCommand` (pipes, `fork`, `forkpty`, the `select` loop, `waitpid`);
  - `CLI::WriteToFile`;
  - `readlink`, `tcgetattr`/`tcsetattr`, `raise(SIGTRAP)`, `getchar`, `std::cin` and `exit`.

  Their outcomes are parameters: window tokens, `fails` maps, status lines, the file text and the user's answers. Their side effects are `Effect` values or result variants.
- The input thread, the event queue and `KeyEvent`: Input.h and KeyEvent.h are not part of this model. A key event is its 10 bytes.
- The menu-driver loops in `_KBLayout`, `_SystemClock`, `_PartitionDisks` and `_InstallPackages`. They wait on key events until the latch is read. The model takes the entry the user confirms (`Answers`) in their place.
- `Menu`'s window pointers and the ncurses `menu_driver` internals are not modelled. The current item moves by one, or by `rows` for a page, and is clamped at the ends.
- `Step3` and its parts `_Chroot`, `_TimeZone`, `_Localization`, `_NetworkConfiguration`, `_Initramfs` and `_BootLoader` are left out. These are fixed commands and file contents. Only the `useradd` arguments of `_Accounts` are modelled.
- The help and version texts and every `what()` message are not modelled, except the three listing messages.
- The renderer's `Init` is not modelled. `Installer::Init` takes its success as a parameter.
- Compositor.Renderer.DestroyLayer: modelled and proved as written, with no corrected version. Its requires demands that no vector is indexed out of range and that the child chain below the handle ends within as many links as there are layers. A cyclic chain, on which the recursion never returns, is therefore not modelled. The lemma `DestroyBreaksPaintOrder` shows that the handle/rank invariant does not survive it.
- The `Installer` methods follow the source as written. They use `Install.Catch` and `Install.PackageArgs`. The corrected definitions below stand beside them, with their properties proved.
- Memory exhaustion (`bad_alloc` from `new`, `calloc` or `new_menu`) appears only as the menu's `menuOk` and `itemOk` parameters and the windows' `None`.

## Findings

| source | as written | input that shows it | evidently intended | confidence | as-written member | corrected member |
|---|---|---|---|---|---|---|
| src/Installer.h:292-294 | Each deselected name is erased at its first occurrence anywhere in the list, as a substring | deselect `nautilus` in the shipped list, where `nautilus-share` precedes `nautilus` (src/Installer.h:264-265): `pacman` is asked for `share` and still for `nautilus` | erase the whole line equal to the name | not executed; proved on the model | Install.SubstringErase | Install.RemovePackagesWords |
| src/Installer.h:56, 68, 85 | `throw e;` on a `std::exception&` throws a copy of its static type | an empty `lsblk` listing raises `runtime_error("Failed to get disks")`, and `main` receives a plain `std::exception` | `throw;`, which rethrows the original exception | not executed; C++ copy semantics | Install.CatchSlices | Install.CatchRethrowSameEffects |
| src/Installer.h:367-370 | the name is read into `username`, but the `useradd` arguments are built from the still-empty `args` | any user name: `useradd` receives `-m -G wheel` and no name | `"-m -G wheel " + username` | not executed; proved on the model | Install.UseraddWithoutUser | Install.UseraddNamesUser |
