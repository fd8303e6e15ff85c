# A verified model of a student systems-programming repository

This project models the core of a repository of C systems-programming homework.

The main part is the front end of the hw3 shell. Its pieces are:

- **Reader** (`system_hw3/reader.c`): a byte source over a 1024-byte buffer, refilled by `read`.
- **Lexer** (`system_hw3/tokenizer.c`): builds tokens (KEYWORD, STRING, WORD, PIPE, IN, OUT, ENDL). It keeps every lexeme in a growable line buffer and holds at most one pending delimiter in `last`.
- **Line buffer** (`system_hw3/dynamic.c`): the growable buffer the lexer uses.
- **parseCommand** (`system_hw3/121044046_main.c`): a four-state machine (INITIAL, ARGS, SIN, SOUT) that turns one pipeline stage into a `struct command`.
- **main loop** (same file): chooses each stage's descriptors (pin, pout, fin, fout), does `execIt`'s `dup2` sequence in the child, and rotates the pipe pair between stages.

Three smaller parts complete the model:

- **TIFF reader** (`system_hw01/tiff.c`): `readFD` and `tiffErrorF`, from TIFF Revision 6.0. `readFD` reads the header, follows the IFD chain, decodes the tags, assembles the strips and unpacks 1-bit images.
- **wc** (`system_hw3/wc.c`): the counting loop and `main`'s walk over its arguments.
- **Florist program** (`system_hw5/121044046_main.c`), without its threads:
  - `findClosestFlorist`;
  - the field split of florist and client lines;
  - the per-florist order queue.

Each C file has one Dafny module:

| module | file |
|---|---|
| `Reader` | reader.dfy |
| `Dynamic` | dynamic.dfy |
| `Tokenizer` | tokenizer.dfy |
| `Shell` | shell.dfy, for parseCommand |
| `Launch` | launch.dfy, for main and execIt |
| `Tiff` | tiff.dfy |
| `Wc` | wc.dfy |
| `Florist` | florist.dfy |

`Wrappers` holds `Option` and `Byte`.

Code that keeps state becomes classes and methods with loops:

- `Reader.Reader`, `Dynamic.Dynamic`, `Tokenizer.Tokenizer` and `Florist.OrderQueue` are classes.
- parseCommand, main's loop, readFD's loops, wc's loops, readFlorists and findClosestFlorist are methods.

Every such method is proved against a pure function, and its properties are lemmas about that function.

**Conventions:**

- The system calls (`read`, `open`, `pipe`, `fork`, `execvp`) are not run. What they answer is a parameter: a reader's input is the list of chunks its successive `read` calls return.
- Memory that C leaves uninitialised is modelled as NUL bytes, or as an explicit "not modelled" outcome where its value would matter.
- In the tables below, "bar" means the pipe byte `|`.

## Model

| member | source | states |
|---|---|---|
| Reader.Initial | system_hw3/reader.c:11-15 | reader_create leaves offset and size at zero, so the first getc refills |
| Reader.ExhaustedIsTest | system_hw3/reader.c:19 | the refill test holds exactly when `size - offset` is zero in 64-bit unsigned arithmetic |
| Reader.AfterRead | system_hw3/reader.c:20 | one read() changes neither offset nor the overrun flag |
| Reader.ReadStores | system_hw3/reader.c:20-24 | end of file stores size 0; a failure stores (size_t)-1 and keeps the buffer; a chunk goes to the front of the buffer, the rest of the buffer is kept, and size is its length |
| Reader.Fetch | system_hw3/reader.c:26-28 | returns `buff[offset]` and advances offset by one, changing nothing else; past the buffer's end it returns NUL and raises the overrun flag |
| Reader.GetcStep | system_hw3/reader.c:17-29 | reader_getc as written advances offset by exactly one and consumes one read() result exactly when it refills |
| Reader.GetcFixedStep | system_hw3/reader.c:17-29 | the corrected reader_getc leaves offset at 1 after a refill and otherwise advances it by one |
| Reader.GetcOverrun | system_hw3/reader.c:26 | for both versions the overrun flag is sticky, is raised exactly when offset passes the buffer's end, and the raising call returns NUL |
| Reader.GetcProgress | system_hw3/reader.c:17-29 | a getc of either version that does not overrun decreases a well-founded measure, so reading until a byte appears ends on finite input |
| Reader.Getcs | system_hw3/reader.c:17-29 | n calls of reader_getc return n bytes and leave a well-formed reader |
| Reader.GetcsFixed | system_hw3/reader.c:17-29 | n calls of the corrected reader_getc return n bytes and leave a well-formed reader |
| Reader.RefillOnlyWhenEmpty | system_hw3/reader.c:19-25 | for both versions, getc consumes a read() result if and only if `size - offset` is zero |
| Reader.FailedReadStillReturnsAByte | system_hw3/reader.c:20-27 | after a failed read the old buffer byte is still returned, and size becomes (size_t)-1 |
| Reader.RefillKeepsOffset | system_hw3/reader.c:19-27 | as written, the byte after a refill is the new chunk's byte at the old offset, not its first byte |
| Reader.ChunkInOrder | system_hw3/reader.c:26-27 | inside the buffered chunk, m calls of either version return the chunk's next m bytes in order and advance offset by m |
| Reader.BufferedByte | system_hw3/reader.c:19-27 | a byte inside the buffered chunk is returned without a refill by both versions |
| Reader.BufferedInOrderBytes | system_hw3/reader.c:26-27 | m calls of reader_getc as written return the next m buffered bytes |
| Reader.BufferedInOrderState | system_hw3/reader.c:26-27 | m buffered calls of reader_getc as written only advance offset by m |
| Reader.BufferedInOrderFixedBytes | system_hw3/reader.c:26-27 | m calls of the corrected reader_getc return the next m buffered bytes |
| Reader.BufferedInOrderFixedState | system_hw3/reader.c:26-27 | m buffered calls of the corrected reader_getc only advance offset by m |
| Reader.FirstGetc | system_hw3/reader.c:11-29 | the first getc after reader_create reads the first chunk and returns its first byte, for both versions |
| Reader.FirstChunkInOrder | system_hw3/reader.c:11-29 | from reader_create, both versions return the first chunk's first n bytes in order |
| Reader.FixedStepTracks | system_hw3/reader.c:17-29 | one corrected getc returns the first pending byte (rest of the buffer, then later chunks) and leaves the rest pending |
| Reader.FixedStepBuffered | system_hw3/reader.c:26-27 | the same, when the byte comes from the buffer |
| Reader.FixedStepRefill | system_hw3/reader.c:19-27 | the same, when the buffer is used up and the next chunk is read |
| Reader.FixedYieldsConcatenation | system_hw3/reader.c:17-29 | n corrected getcs return exactly the first n pending bytes, and the rest stays pending |
| Reader.FromCreateFixed | system_hw3/reader.c:11-29 | from reader_create, the corrected reader returns the concatenation of the non-empty chunks, in order |
| Reader.AsWrittenSkipsBytes | system_hw3/reader.c:19-27 | for the chunks "ls\n" and "pwd\n": as written, the 4th byte is a second '\n'; corrected, it is 'p' |
| Reader.Reader.Create | system_hw3/reader.c:11-15 | the new reader is valid, has yielded nothing, and holds the initial state |
| Reader.Reader.ReadChunk | system_hw3/reader.c:20 | the in-place read() leaves the state AfterRead describes |
| Reader.Reader.CopyIn | system_hw3/reader.c:20 | read() copies the chunk to the front of the array and leaves the rest |
| Reader.Reader.Getc | system_hw3/reader.c:17-29 | the in-place reader_getc returns the byte GetcStep gives and leaves its state, and records the byte as yielded |
| Reader.Reader.GetcFixed | system_hw3/reader.c:17-29 | the same for GetcFixedStep, with its overrun and progress facts |
| Reader.Reader.Take | system_hw3/reader.c:26-28 | the fetch of a byte is Fetch on the object's state |
| Reader.Reader.Destroy | system_hw3/reader.c:31-33 | reader_destroy zeroes size and changes nothing else |
| Dynamic.Created | system_hw3/dynamic.c:11-15 | dynamic_create gives a 1024-byte block with nothing in use |
| Dynamic.Store | system_hw3/dynamic.c:26 | the memcpy puts the bytes at [at, at+size) and keeps every other byte |
| Dynamic.AddAsWritten | system_hw3/dynamic.c:17-29 | dynamic_add as written keeps `used < cap` and adds size to used |
| Dynamic.Regrown | system_hw3/dynamic.c:18-25 | the corrected regrowth makes the block 1024 bytes larger and keeps the bytes in use |
| Dynamic.Appended | system_hw3/dynamic.c:17-29 | the corrected dynamic_add keeps `used < cap`, adds size to used, and never shrinks the block |
| Dynamic.AddKeepsCapacityInvariant | system_hw3/dynamic.c:17-29 | both versions keep `used < cap`, grow by exactly 1024 exactly when `used + size >= cap`, and put the new bytes at [old used, new used) |
| Dynamic.AppendContents | system_hw3/dynamic.c:17-29 | the corrected dynamic_add keeps the bytes in use and appends the new ones after them |
| Dynamic.AppendTwice | system_hw3/dynamic.c:17-29 | two corrected adds hold the same bytes as one add of the concatenation |
| Dynamic.AppendEach | system_hw3/dynamic.c:17-29 | one-byte adds, one per byte, raise used by the number of bytes |
| Dynamic.AppendEachContents | system_hw3/dynamic.c:17-29 | one-byte adds keep the contents and append the bytes in order |
| Dynamic.AppendEachAt | system_hw3/dynamic.c:26 | after one-byte adds, each new byte sits at its own position |
| Dynamic.AppendEachSnoc | system_hw3/dynamic.c:17-29 | adding one more byte is one more dynamic_add |
| Dynamic.AddAsWrittenLosesBytes | system_hw3/dynamic.c:23 | as written, 1023 bytes 'a' in use plus one more byte leave a NUL at position 8 |
| Dynamic.Dynamic.Create | system_hw3/dynamic.c:11-15 | the object holds the value dynamic_create gives |
| Dynamic.Dynamic.CopyOf | system_hw3/121044046_main.c:105 | a by-value copy shares the block and has the same counts |
| Dynamic.Dynamic.Add | system_hw3/dynamic.c:17-29 | the in-place dynamic_add as written reaches the state AddAsWritten gives |
| Dynamic.Dynamic.Append | system_hw3/dynamic.c:17-29 | the corrected in-place dynamic_add reaches the state Appended gives |
| Dynamic.Dynamic.Get | system_hw3/dynamic.c:31-34 | dynamic_get returns the block and used, and changes nothing |
| Dynamic.Dynamic.Clear | system_hw3/dynamic.c:36-38 | dynamic_clear resets used and keeps the block and cap |
| Dynamic.Dynamic.Destroy | system_hw3/dynamic.c:40-44 | dynamic_destroy zeroes used and cap |
| Dynamic.Copy | system_hw3/dynamic.c:23 | the memcpy of the regrowth copies the first n bytes and keeps the rest of the destination |
| Dynamic.Write | system_hw3/dynamic.c:26 | the memcpy into the block is Store on the array's contents |
| Tokenizer.StrKeywordNamesSpelledKeywords | system_hw3/tokenizer.c:10-20 | strKeyword returns NULL exactly for LS, CAT and WC, which are the keywords the lexer cannot produce, and otherwise the upper-case spelling |
| Tokenizer.StrTokenTypeInjective | system_hw3/tokenizer.c:22-40 | strTokenType gives every token type a non-empty name of its own |
| Tokenizer.DelimiterType | system_hw3/tokenizer.c:49-61 | a pending delimiter byte becomes a PIPE, IN, OUT or ENDL token |
| Tokenizer.CStringPrefix | system_hw3/tokenizer.c:88 | the C string at a position is the NUL-free prefix up to the first NUL or the end |
| Tokenizer.FirstNonSpace | system_hw3/tokenizer.c:66-69 | the space loop stops at the first byte that is not ' ', or at the end of the bytes |
| Tokenizer.FirstNonSpaceSkips | system_hw3/tokenizer.c:66-69 | the loop stops at n if and only if every byte before n is a space and byte n is not |
| Tokenizer.ScanString | system_hw3/tokenizer.c:76-85 | a finished STRING loop consumed at least one byte and no more than it had |
| Tokenizer.ScanWord | system_hw3/tokenizer.c:104-122 | a finished WORD loop consumed at least one byte and no more than it had |
| Tokenizer.KeywordOfSpelled | system_hw3/tokenizer.c:125-137 | the keyword a word denotes has a spelling, and the word starts with it |
| Tokenizer.NextToken | system_hw3/tokenizer.c:48-143 | tokenizer_next reads no more bytes than it has, and reads none exactly when a delimiter is pending; it then clears `last` and appends nothing |
| Tokenizer.StringLex | system_hw3/tokenizer.c:75-88 | the STRING branch reads the quote and at least one byte more |
| Tokenizer.WordLex | system_hw3/tokenizer.c:103-142 | the WORD branch reads its first byte and at least one byte more |
| Tokenizer.WordLexed | system_hw3/tokenizer.c:124-142 | the end of the WORD branch keeps the count and the pending delimiter the loop left |
| Tokenizer.ScanStringDone | system_hw3/tokenizer.c:76-85 | a finished STRING loop stopped at the first NUL or unescaped quote, and kept every byte before it plus the closing quote |
| Tokenizer.ScanStringStops | system_hw3/tokenizer.c:76-85 | a finished STRING loop's bytes go on up to its stop byte, which ends it |
| Tokenizer.ScanStringKeeps | system_hw3/tokenizer.c:76-85 | a finished STRING loop keeps the bytes before its stop byte, and the stop byte unless it is NUL |
| Tokenizer.ScanWordDone | system_hw3/tokenizer.c:104-122 | a finished WORD loop stopped at the first byte that ends a word, kept every byte before it, and appended one NUL unless a NUL stopped it |
| Tokenizer.ScanWordStops | system_hw3/tokenizer.c:104-122 | a finished WORD loop's bytes go on up to its stop byte, which ends it |
| Tokenizer.ScanWordKeeps | system_hw3/tokenizer.c:104-122 | a finished WORD loop keeps the bytes before its stop byte, plus a NUL unless a NUL stopped it |
| Tokenizer.ScanStringAt | system_hw3/tokenizer.c:76-85 | conversely, a STRING scan whose bytes stop at position n finishes there with exactly those bytes kept |
| Tokenizer.ScanWordAt | system_hw3/tokenizer.c:104-122 | conversely, a WORD scan whose bytes stop at position n finishes there with exactly those bytes kept |
| Tokenizer.ScanStringExtend | system_hw3/tokenizer.c:76-85 | more input leaves a finished STRING scan unchanged, and a pending one resumes where its bytes ran out |
| Tokenizer.ScanWordExtend | system_hw3/tokenizer.c:104-122 | more input leaves a finished WORD scan unchanged, and a pending one resumes where its bytes ran out |
| Tokenizer.FirstNonSpaceExtend | system_hw3/tokenizer.c:66-69 | where the space loop stops depends only on the bytes up to there |
| Tokenizer.NextTokenExtend | system_hw3/tokenizer.c:48-143 | more input after the bytes a token consumed does not change the token, the count, `last` or the appended bytes |
| Tokenizer.StringLexExtend | system_hw3/tokenizer.c:75-88 | the same for the STRING branch |
| Tokenizer.WordLexExtend | system_hw3/tokenizer.c:103-142 | the same for the WORD branch |
| Tokenizer.StringStep | system_hw3/tokenizer.c:76-85 | one more byte in the STRING loop: a NUL stops it without being appended; a quote with no backslash before it stops it and is appended; any other byte is appended |
| Tokenizer.WordStep | system_hw3/tokenizer.c:104-121 | one more byte in the WORD loop: a NUL stops it; a space with no backslash before it, or a delimiter, stops it with a NUL appended; any other byte is appended |
| Tokenizer.LexemeInBuffer | system_hw3/tokenizer.c:70-88 | the line buffer holds its old bytes and then the lexeme's bytes, in order |
| Tokenizer.PendingDelimiterFirst | system_hw3/tokenizer.c:49-61 | a pending '\n', bar, '<' or '>' is returned as ENDL, PIPE, IN or OUT without reading a byte, and the pending slot is emptied |
| Tokenizer.DelimiterToken | system_hw3/tokenizer.c:66-101 | a first non-space byte bar, '<', '>' or '\n' is a token of its own; it is appended, and `last` is unchanged |
| Tokenizer.StringToken | system_hw3/tokenizer.c:75-88 | a STRING runs from its opening quote through the first unescaped quote or NUL. Its text keeps both quotes and every backslash, no other byte (a newline included) ends it, and the buffer gains the text and a NUL |
| Tokenizer.StringLexScan | system_hw3/tokenizer.c:75-88 | a lexed STRING stopped at the first byte that ends it |
| Tokenizer.StringNeedsMore | system_hw3/tokenizer.c:76-85 | a STRING with no byte that ends it needs more input |
| Tokenizer.StringText | system_hw3/tokenizer.c:86-88 | the text of a STRING token is its quote and the bytes its loop kept, and it has no NUL |
| Tokenizer.StringNulFree | system_hw3/tokenizer.c:76-85 | no byte of a STRING's text is NUL |
| Tokenizer.WordToken | system_hw3/tokenizer.c:103-142 | a word runs from its first byte to the first unescaped space, delimiter or NUL; a stopping delimiter becomes pending. A word that starts with pwd, cd, help or exit is that keyword. Stopped by a space or a delimiter, the token is Classify of the bytes read. The buffer gains the word, a NUL, and one more NUL for a WORD |
| Tokenizer.WordLexScan | system_hw3/tokenizer.c:103-122 | a lexed word stopped at the first byte that ends it |
| Tokenizer.WordLexStops | system_hw3/tokenizer.c:104-122 | the same for the WORD branch from any position |
| Tokenizer.WordNeedsMore | system_hw3/tokenizer.c:104-122 | a word with no byte that ends it needs more input |
| Tokenizer.WordLexAt | system_hw3/tokenizer.c:103-142 | the WORD branch on a word stopping at n ends with the word's bytes and its NUL appended, and the C string at its start is the word |
| Tokenizer.WordLexeme | system_hw3/tokenizer.c:124-142 | after the keyword test, the token is a KEYWORD or the WORD with exactly the word's text, and a WORD gets one more NUL |
| Tokenizer.KeywordInBuffer | system_hw3/tokenizer.c:125-137 | the keyword test on the line buffer finds the word's keyword whenever it has one, and decides exactly KeywordOf once a NUL follows the word |
| Tokenizer.WordText | system_hw3/tokenizer.c:104-122 | the bytes a word's loop kept, after its first byte, are the word and its NUL, and the C string there is the word |
| Tokenizer.WordNulFree | system_hw3/tokenizer.c:104-122 | no byte of a word is NUL |
| Tokenizer.WordInBuffer | system_hw3/tokenizer.c:104-122 | after the word and its tail are appended, the word sits at the lexeme's start, with a NUL right after it when the tail is one |
| Tokenizer.KeywordAtOfPrefix | system_hw3/tokenizer.c:125-137 | when a word starts with a keyword, the strncmp chain finds that keyword; the four spellings start with different letters |
| Tokenizer.MatchesAtTerminated | system_hw3/tokenizer.c:125 | with a NUL right after the word, strncmp against a keyword returns 0 if and only if the word starts with it |
| Tokenizer.KeywordAtOfTerminated | system_hw3/tokenizer.c:125-137 | with a NUL right after the word, the strncmp chain is the prefix test on the word |
| Tokenizer.KeywordIsAPrefixTest | system_hw3/tokenizer.c:66-69 | `cdrom` is the keyword cd, `pwdx` is pwd and `ls` is a word; a tab is not skipped |
| Tokenizer.LastAppended | system_hw3/tokenizer.c:82 | the byte the escape test reads is the one in front of the new byte (the opening byte when it is the first) |
| Tokenizer.NextString | system_hw3/tokenizer.c:66-88 | tokenizer_next on a STRING whose loop read zs is the token at the lexeme's start, with the lexeme and a NUL appended |
| Tokenizer.NextWord | system_hw3/tokenizer.c:66-142 | tokenizer_next on a word whose loop read zs is the keyword test's result on the line buffer, with the pending delimiter the loop left |
| Tokenizer.Tokenizer.Create | system_hw3/tokenizer.c:42-46 | tokenizer_create keeps the reader, creates the line buffer and sets `last` to NUL |
| Tokenizer.Tokenizer.CopyOf | system_hw3/121044046_main.c:105 | a tokenizer passed by value has its own `last` and counts, and the caller's block and reader |
| Tokenizer.Tokenizer.Next | system_hw3/tokenizer.c:48-143 | the in-place tokenizer_next returns the token NextToken gives for the bytes it read, and the buffer gains exactly the appended bytes. A pending delimiter reads nothing; otherwise the reader makes progress |
| Tokenizer.Tokenizer.NextLexeme | system_hw3/tokenizer.c:63-143 | the same when no delimiter is pending |
| Tokenizer.Tokenizer.Lexeme | system_hw3/tokenizer.c:75-142 | the branch on the lexeme's first byte agrees with NextToken on the bytes read |
| Tokenizer.Tokenizer.LexString | system_hw3/tokenizer.c:75-88 | the in-place STRING branch ends its loop where ScanString does, and returns the text at the lexeme's start |
| Tokenizer.Tokenizer.StringEnded | system_hw3/tokenizer.c:86-88 | the NUL is appended, and the token is the C string of the lexeme |
| Tokenizer.Tokenizer.LexWord | system_hw3/tokenizer.c:103-142 | the in-place WORD branch ends its loop where ScanWord does, and its token and appended bytes come from the keyword test on the buffer |
| Tokenizer.Tokenizer.RecordDelimiter | system_hw3/tokenizer.c:115-118 | a stopping delimiter becomes `last`; nothing else changes |
| Tokenizer.Tokenizer.WordEnded | system_hw3/tokenizer.c:124-142 | the keyword test on the buffer decides the token; a WORD gets a NUL and the text at the lexeme's start |
| Tokenizer.Tokenizer.SkipSpaces | system_hw3/tokenizer.c:66-69 | the loop returns the first byte that is not a space; all bytes before it were spaces |
| Tokenizer.Tokenizer.ScanStringLoop | system_hw3/tokenizer.c:76-85 | the in-place STRING loop reads exactly the bytes ScanString consumes and appends what it keeps |
| Tokenizer.Tokenizer.ReadStringByte | system_hw3/tokenizer.c:76-84 | one round of the STRING loop is one getc and one StringStep |
| Tokenizer.Tokenizer.StringByte | system_hw3/tokenizer.c:78-84 | one byte of the STRING loop does what ScanString does with it |
| Tokenizer.Tokenizer.ScanWordLoop | system_hw3/tokenizer.c:104-122 | the in-place WORD loop reads exactly the bytes ScanWord consumes, appends what it keeps, and returns the byte that stopped it |
| Tokenizer.Tokenizer.ReadWordByte | system_hw3/tokenizer.c:104-121 | one round of the WORD loop is one getc and one WordStep |
| Tokenizer.Tokenizer.WordByte | system_hw3/tokenizer.c:106-121 | one byte of the WORD loop does what ScanWord does with it |
| Tokenizer.Tokenizer.NextLine | system_hw3/tokenizer.c:145-153 | tokenizer_nextLine reads nothing when the buffer ends with a newline, and otherwise reads through the next newline; then it empties the buffer and keeps its block |
| Tokenizer.Tokenizer.Destroy | system_hw3/tokenizer.c:155-157 | tokenizer_destroy zeroes the line buffer's counts |
| Shell.ChainedSnoc | system_hw3/121044046_main.c:112 | one more tokenizer_next call that starts where the last one stopped extends the chain of calls |
| Shell.OfSnoc | system_hw3/121044046_main.c:112 | one more call appends its bytes and its token, and parseCommand folds that token over the state so far |
| Shell.TokensOf | system_hw3/121044046_main.c:112 | a chain of calls yields one token per call |
| Shell.StoppedStays | system_hw3/121044046_main.c:112-179 | once parseCommand has returned, later tokens change nothing; it reads no token past the one that decided it |
| Shell.FirstToken | system_hw3/121044046_main.c:113-128 | the first token decides the kind. A STRING or WORD gives an EXECUTABLE whose path and args[0] are its data, a KEYWORD gives a BUILTIN, `<` or `>` gives status 1, and a terminator returns 0 with the command untyped |
| Shell.Redirects | system_hw3/121044046_main.c:129-147 | in ARGS, `<` or `>` and the next token, whatever its type, set the redirect; a later one of the same kind overwrites it |
| Shell.DanglingRedirect | system_hw3/121044046_main.c:158-162 | a line that ends right after `<` is status 2, and after `>` status 3 |
| Shell.RedirectStatuses | system_hw3/121044046_main.c:124-162 | `cat <` then a newline is status 2, but `<` then a newline is status 1 |
| Shell.Datas | system_hw3/121044046_main.c:150 | the argument data are the tokens' data, in order |
| Shell.ArgumentsInOrder | system_hw3/121044046_main.c:113-154 | the arguments are stored in order after args[0] |
| Shell.SimpleCommand | system_hw3/121044046_main.c:112-178 | with no redirects, args holds the first token's data, then every argument, then NULL; pipe[1] is set exactly when a bar ended the command; the 100 slots suffice if and only if there are at most 98 arguments |
| Shell.FeedShaped | system_hw3/121044046_main.c:112-176 | every token of the lexer keeps the shape that status-0 commands have |
| Shell.FinishShaped | system_hw3/121044046_main.c:158-176 | the code after the loop keeps the shape: args ends with its only NULL, and pipe[1] records a PIPE terminator |
| Shell.StepShaped | system_hw3/121044046_main.c:113-155 | a token that does not end the loop keeps the shape |
| Shell.ReturnsTerminator | system_hw3/121044046_main.c:164-178 | status 0 stores the deciding token in `*last`, and that token is ENDL or PIPE |
| Shell.AllShaped | system_hw3/121044046_main.c:105-179 | every parse of lexer tokens is shaped |
| Shell.Advance | system_hw3/121044046_main.c:113-155 | the switch on the state does what the Feed fold does with a non-terminating token, `return 1` included |
| Shell.Complete | system_hw3/121044046_main.c:158-178 | the code after the loop does what Finish does |
| Shell.Pull | system_hw3/121044046_main.c:112 | one tokenizer_next at the loop's head extends the recorded chain; the reader makes progress, or stays while the pending slot is cleared |
| Shell.ParseCommand | system_hw3/121044046_main.c:105-179 | parseCommand on a by-value copy of the tokenizer returns the status, command and `*last` that the fold over the tokens it read gives. It reads no token past the deciding one, and leaves the caller's reader and line buffer valid, with the line buffer's contents kept, while the reader moves on (the model keeps the caller's block alive when the copy's buffer grows; see Left out) |
| Shell.Round | system_hw3/121044046_main.c:112-155 | one round of the loop takes one token and then continues, fails, or ends on a terminator, in agreement with the fold |
| Shell.ParseLoop | system_hw3/121044046_main.c:112-156 | the while loop runs until a terminator, a first-token failure or an overrun, in agreement with the fold over the tokens it read |
| Launch.Dup2 | system_hw3/121044046_main.c:82 | dup2 makes `to` a copy of `from` and changes no other descriptor; with `from` not open nothing changes |
| Launch.Close | system_hw3/121044046_main.c:83 | close removes exactly that descriptor |
| Launch.RedirectMoves | system_hw3/121044046_main.c:81-84 | one redirect of an open descriptor moves its object to `to`, closes it, and changes nothing else |
| Launch.ExecItStreams | system_hw3/121044046_main.c:81-99 | the dup2 order: a file redirect overrides the pipe on the same stream, which overrides the shell's own stream. Every descriptor passed is closed, and every other descriptor the shell had open is inherited as is |
| Launch.ExecItWithin | system_hw3/121044046_main.c:67-99 | the child refers only to objects the shell had open when it forked |
| Launch.RedirectWithin | system_hw3/121044046_main.c:81-84 | a redirect adds no reference to a new object |
| Launch.CloseFd | system_hw3/121044046_main.c:236-239 | `if (fd != -1) close(fd)` removes fd and keeps every other descriptor |
| Launch.OpenAs | system_hw3/121044046_main.c:216 | a descriptor from open() or pipe() is added with its object and nothing else changes; -1 adds nothing |
| Launch.PipeFor | system_hw3/121044046_main.c:200-209 | nextInPipe becomes pipe[1], and the other locals are kept |
| Launch.Rotate | system_hw3/121044046_main.c:244-252 | the previous pipe is closed in the shell, pipeO takes pipeN, currInPipe takes nextInPipe, and pipeN itself is kept |
| Launch.Prepare | system_hw3/121044046_main.c:198-233 | opening the pipe and the redirect files keeps the children, the stage and pipeO, and sets nextInPipe to pipe[1] |
| Launch.Spawn | system_hw3/121044046_main.c:235-239 | execIt records the child with execIt's table when fork succeeds; the shell then closes fin and fout (and, in the corrected version, pout) and keeps every other descriptor |
| Launch.StepExits | system_hw3/121044046_main.c:215-233 | main exits exactly when an EXECUTABLE's redirect cannot be opened, and then launches nothing |
| Launch.StepForks | system_hw3/121044046_main.c:235 | a child is launched for an EXECUTABLE whose fork succeeds and for nothing else; earlier children are kept |
| Launch.StepLaunches | system_hw3/121044046_main.c:198-235 | the child's standard input is the redirect file, else the previous pipe's read end when the previous command piped in, else the shell's input. Its output is the redirect file, else the new pipe's write end for a command ending in a bar (the previous write end when pipe() fails), else the shell's output. Path and args are the command's |
| Launch.PrepareStreams | system_hw3/121044046_main.c:198-233 | under fresh descriptors from the kernel, pin, pout, fin and fout are fit for execIt, and each refers to what main means it to |
| Launch.OpenRedirects | system_hw3/121044046_main.c:215-233 | opening the redirect files after the pipe keeps the pipe's descriptors where they were |
| Launch.PipeForOpens | system_hw3/121044046_main.c:200-209 | pipe() adds its two fresh ends and keeps every open descriptor |
| Launch.PrepareShape | system_hw3/121044046_main.c:198-233 | just before execIt the shell holds what it held, the new pipe's two ends and the redirect files |
| Launch.StepRotates | system_hw3/121044046_main.c:244-252 | after an iteration pipeO and pipeN agree, currInPipe says whether the command piped on, and the previous pipe is closed in the shell |
| Launch.StalePipe | system_hw3/121044046_main.c:244-252 | a command that does not pipe on leaves pipeO naming the pair just closed, because pipeN is never reset |
| Launch.StepPipes | system_hw3/121044046_main.c:198-252 | after a command ending in a bar whose pipe() succeeds, pipeO is the new pipe and currInPipe is set. The shell keeps the read end, and keeps the write end only in the version as written |
| Launch.StepContinues | system_hw3/121044046_main.c:198-252 | an EXECUTABLE whose redirects open goes through Prepare, Spawn and Rotate |
| Launch.RotateSpawnPipe | system_hw3/121044046_main.c:235-252 | the end of an iteration that made a pipe leaves the shell settled, holding that pipe's read end as pipeO |
| Launch.PrepareDerived | system_hw3/121044046_main.c:198-233 | opening only adds objects made for this command |
| Launch.StepDerived | system_hw3/121044046_main.c:198-252 | an iteration only drops references and adds references to objects made for this command |
| Launch.PipeForDerived | system_hw3/121044046_main.c:200-209 | pipe() only adds objects made for this command |
| Launch.LaunchDerived | system_hw3/121044046_main.c:235-252 | the same for execIt and the rotation |
| Launch.StepWithin | system_hw3/121044046_main.c:198-252 | an object the shell does not hold and does not make in an iteration is held neither by the shell nor by the child it launches |
| Launch.InitialOlder | system_hw3/121044046_main.c:186-188 | at the start the shell refers only to its own standard streams |
| Launch.StepKeepsOlder | system_hw3/121044046_main.c:197-256 | every object the shell refers to was made for an earlier command; this holds across iterations |
| Launch.PipelineConnects | system_hw3/121044046_main.c:198-252 | x piped into y joins x's standard output to y's standard input through the pipe made for x, whichever way the write end is treated |
| Launch.StepChild | system_hw3/121044046_main.c:235 | the launched child has execIt's table, made from the shell's table just before execIt |
| Launch.ExecItOnlyAt | system_hw3/121044046_main.c:86-89 | what only pout refers to, only the child's standard output refers to after execIt |
| Launch.PrepareOnlyWriteEnd | system_hw3/121044046_main.c:200-205 | just before execIt, the new pipe's write end is the shell's only descriptor on it |
| Launch.StepClosesWriteEnd | system_hw3/121044046_main.c:235-252 | with the corrected close, the shell keeps no descriptor on the new pipe's write end once the command is launched |
| Launch.ReaderHoldsWriteEnd | system_hw3/121044046_main.c:235-252 | as written, in x piped into y the child y inherits the pipe's write end under the same number, so it never reads end of file from the pipe |
| Launch.ReaderInherits | system_hw3/121044046_main.c:235 | a command forked while the shell holds the previous pipe's write end inherits it under the same number |
| Launch.ReaderSeesEnd | system_hw3/121044046_main.c:235-252 | corrected: x's standard output is the only descriptor anywhere on the write end of the pipe of x piped into y, so y reads end of file once x exits |
| Launch.WriterHoldsOutput | system_hw3/121044046_main.c:235-252 | corrected: after x's iteration, x holds the write end only at standard output, and the shell holds it nowhere |
| Launch.Dispatch | system_hw3/121044046_main.c:198-252 | main's iteration on its locals is Step, as written when `closeWriteEnd` is false and with the write end closed when it is true |
| Launch.OpenStreams | system_hw3/121044046_main.c:198-233 | the pipe and redirect opening exits exactly when a redirect cannot be opened, and otherwise is Prepare |
| Launch.ForkChild | system_hw3/121044046_main.c:235-239 | execIt and the closes after it are Spawn. With `closeWriteEnd` false the shell closes only fin and fout, as written; with it true it also closes pout |
| Launch.ReplayOlder | system_hw3/121044046_main.c:197-256 | over the whole loop the shell refers only to objects of earlier commands, and the stage counts the commands handled |
| Launch.ReplaySnoc | system_hw3/121044046_main.c:197-256 | one more command is one more Step |
| Launch.ConsumedSnoc | system_hw3/121044046_main.c:197 | one more parse appends the bytes it read |
| Launch.NextCommand | system_hw3/121044046_main.c:197 | parseCommand on main's tokenizer leaves `last` NUL and main's line buffer `used` as it was. Unless it ran past the buffer, the bytes it read lex, from that line buffer with `last` NUL, into its calls. Status 0 comes with a PIPE or ENDL terminator and the command the parse returned |
| Launch.Iteration | system_hw3/121044046_main.c:197-256 | one pass of the loop body: the parse chains onto the earlier ones, a status-0 command is one more Step, and the loop is left exactly at a non-zero status, at exit(1) or after a command that did not pipe on |
| Launch.Run | system_hw3/121044046_main.c:181-258 | main's loop handles exactly the commands returned with status 0, in order, with Step (as written when `closeWriteEnd` is false). Each parse lexes the bytes it read from main's line buffer with `last` NUL. Every command but the last piped on. It stops after a newline-ended command, at a non-zero status, or at exit(1) |
| Wc.NewlinesAppend | system_hw3/wc.c:46-48 | the newline count of a concatenation is the sum of the counts |
| Wc.SpacesAppend | system_hw3/wc.c:46-52 | the white-space count of a concatenation is the sum of the counts |
| Wc.CountSplits | system_hw3/wc.c:44-54 | counting a stream in two pieces and adding gives the counts of the whole, wherever the chunk boundaries fall |
| Wc.CountsBounded | system_hw3/wc.c:46-52 | every newline is also a white-space byte, so there are no more lines than words, and no more words than bytes |
| Wc.WordsAreSpaceBytes | system_hw3/wc.c:50-52 | "a  b\n" counts 1 line, 3 words and 5 bytes: the words are white-space bytes |
| Wc.Count | system_hw3/wc.c:40-61 | corrected (`rb` as `ssize_t`): wc adds the newlines, white-space bytes and bytes of every chunk read before end of file or a failure to the caller's counters, and reports whether a failure stopped it |
| Wc.Size | system_hw3/wc.c:44 | read() returns -1 exactly on failure, and otherwise the chunk's length |
| Wc.StreamStep | system_hw3/wc.c:44-54 | a read that brings bytes puts them in front of the rest of the stream, and is not the failure the loop stops on |
| Wc.ToSize | system_hw3/wc.c:42-44 | storing read()'s result in a size_t keeps non-negative counts and wraps -1 |
| Wc.FailedReadKeepsLooping | system_hw3/wc.c:42-58 | as written, a failed read keeps the loop going with SIZE_MAX bytes, more than the 1024-byte buffer holds; the `rb == -1` report is unreachable |
| Wc.ConditionsAgreeOnData | system_hw3/wc.c:44 | on every answer that is not a failure, the loop condition as written and the intended one agree |
| Wc.EachFile | system_hw3/wc.c:23-34 | the loop prints, in order, each file argument from the given index on, counted from zero, or an open error |
| Wc.OneFile | system_hw3/wc.c:24-33 | one file argument prints an open error, or its counts from zero |
| Wc.CountAndPrint | system_hw3/wc.c:28-32 | the corrected wc on zeroed counters prints a read error, if any, and then the counts |
| Wc.ArgReportsSnoc | system_hw3/wc.c:23-34 | one more argument appends its own lines to the output |
| Wc.WcMain | system_hw3/wc.c:17-38 | as written in its argument loop: with no argument wc counts standard input; with arguments it counts argv[2], argv[3], ... in order. Each file is counted by the corrected wc |
| Wc.WcMainFromFirst | system_hw3/wc.c:17-38 | corrected: with arguments it counts argv[1], argv[2], ... in order |
| Wc.ArgReportsCover | system_hw3/wc.c:23-34 | every file argument brings at least one line of output |
| Wc.OneFileIgnored | system_hw3/wc.c:23 | as written, `wc f` prints nothing |
| Wc.OneFileCounted | system_hw3/wc.c:23 | from argv[1], `wc f` prints f's counts |
| Tiff.Host16 | system_hw01/tiff.c:124 | a 16-bit field read straight into memory is below 2^16 |
| Tiff.Host32 | system_hw01/tiff.c:240 | a 32-bit field read straight into memory is below 2^32 |
| Tiff.Get16 | system_hw01/tiff.c:158-162 | le16toh / be16toh give a value below 2^16 |
| Tiff.Get32 | system_hw01/tiff.c:124-127 | le32toh / be32toh give a value below 2^32 |
| Tiff.Put16 | system_hw01/tiff.c:158-162 | a 16-bit field takes two bytes of the file |
| Tiff.Put32 | system_hw01/tiff.c:124-127 | a 32-bit field takes four bytes of the file |
| Tiff.Get16Put16 | system_hw01/tiff.c:158-162 | a 16-bit field written in either byte order is read back by the matching conversion |
| Tiff.Get32Put32 | system_hw01/tiff.c:124-127 | a 32-bit field written in either byte order is read back by the matching conversion |
| Tiff.RawIsLittle | system_hw01/tiff.c:124 | on the little-endian host a raw read equals the little-endian conversion, and equals the big-endian one only for a palindromic field |
| Tiff.ErrorText | system_hw01/tiff.c:80-93 | tiffErrorF has a text exactly for the five error codes UNKNOWN_BYTE_ORDER..MALLOC_ERROR and none for any other value |
| Tiff.ErrorTextsDistinct | system_hw01/tiff.c:80-93 | two codes with the same text are the same code |
| Tiff.Fetch | system_hw01/tiff.c:37-53 | readAll succeeds exactly when n > 0 bytes are left at the position, and then yields those bytes |
| Tiff.HeaderCases | system_hw01/tiff.c:116-132 | "II" gives little-endian and "MM" big-endian, each an if-and-only-if; the first IFD offset is converted in that order; any other mark fails with UNKNOWN_BYTE_ORDER and the mark as data |
| Tiff.ShortHeader | system_hw01/tiff.c:116-122 | a file shorter than the header fails with READ_ERROR and data 8 |
| Tiff.VersionIgnored | system_hw01/tiff.c:116-132 | changing the version field does not change the header outcome |
| Tiff.EncodeTag | system_hw01/tiff.c:19-24 | an IFD entry takes 12 bytes |
| Tiff.TagRoundTrip | system_hw01/tiff.c:176-193 | decoding an encoded entry gives it back, in both orders for WORD, DWORD and RATIONAL and for every type in a little-endian file |
| Tiff.FieldRoundTrip | system_hw01/tiff.c:181-192 | the value field is read back as written, 16-bit for WORD and 32-bit otherwise |
| Tiff.RawValueInBigFile | system_hw01/tiff.c:185-193 | a value of an unconverted type in a big-endian file stays raw: 00 00 00 01 reads as 0x1000000 |
| Tiff.RecordSlots | system_hw01/tiff.c:195-237 | storing an entry fills the local with its id and no other; an unknown id changes nothing |
| Tiff.RecordLastWins | system_hw01/tiff.c:195-237 | of two entries with the same id the later one is kept |
| Tiff.ScanTagsReads | system_hw01/tiff.c:167-174 | the entries of an IFD can all be read exactly when they lie inside the file |
| Tiff.LastEntryFirst | system_hw01/tiff.c:167-238 | the last entry with an id among n entries is the last among the n-1 after the first, with the first as default when it matches |
| Tiff.ScanKeepsLast | system_hw01/tiff.c:167-238 | after an IFD's entries each known tag's local holds the last entry with that id, or its earlier value |
| Tiff.ReadTags | system_hw01/tiff.c:167-238 | the for-loop over the entries yields the scanned tag locals |
| Tiff.CountLeft | system_hw01/tiff.c:150-155 | after a failed read of an entry count, err->data is ifd.count as it was when no byte was left, and has the one byte read as its low byte when one was |
| Tiff.FollowFuel | system_hw01/tiff.c:139-247 | once the IFD chain has ended, following it with more steps gives the same outcome |
| Tiff.SelfLinkedRunsAway | system_hw01/tiff.c:139-247 | an IFD whose next offset is itself makes the do-while run forever |
| Tiff.ReadIfd | system_hw01/tiff.c:150-246 | one pass of the do-while: entry count (with ifd.count as data when it cannot be read), entries, next offset |
| Tiff.ReadChain | system_hw01/tiff.c:137-247 | the do-while over the IFD chain follows the chain until a next offset of 0, carrying each IFD's count into the next pass |
| Tiff.SumSnoc | system_hw01/tiff.c:337-339 | the sum of the first i+1 byte counts is the sum of the first i plus count i |
| Tiff.Words | system_hw01/tiff.c:312 | a strip array of 4n bytes holds n words |
| Tiff.SumCounts | system_hw01/tiff.c:336-339 | the loop summing the byte counts yields their sum modulo 2^32 |
| Tiff.GatherLength | system_hw01/tiff.c:349-366 | the assembled strips are exactly as long as the sum of their byte counts and fit the buffer |
| Tiff.GatherPlaces | system_hw01/tiff.c:349-366 | strip j lies whole in the file and is copied right after strips 0..j-1 |
| Tiff.SingleStrip | system_hw01/tiff.c:270-293 | with one strip the buffer is obtained exactly when the byte count is positive and fits the file, and is then those bytes at the strip offset |
| Tiff.StripFailures | system_hw01/tiff.c:268-367 | assembling the strips fails only with READ_ERROR |
| Tiff.GatherFailures | system_hw01/tiff.c:349-366 | the loop over the strips fails only with READ_ERROR |
| Tiff.ReadStrips | system_hw01/tiff.c:268-367 | the strip buffer code yields the strips' bytes as assembled |
| Tiff.ReadEachStrip | system_hw01/tiff.c:348-366 | the loop reading each strip into buff yields the gathered strips when they fill the buffer |
| Tiff.PrependNothing | system_hw01/tiff.c:358 | placing no bytes before a result leaves it unchanged |
| Tiff.PrependTwice | system_hw01/tiff.c:358-365 | placing two pieces in turn before a result is placing their concatenation |
| Tiff.UnpackedLength | system_hw01/tiff.c:370 | a 1-bit image unpacks to width * height bytes |
| Tiff.UnpackedGrows | system_hw01/tiff.c:371-381 | rows 0..i fit inside rows 0..h-1 |
| Tiff.UnpackedAt | system_hw01/tiff.c:379 | byte i * width + j of the unpacked image is pixel (i, j) |
| Tiff.UnpackedRowAt | system_hw01/tiff.c:371-381 | row i of the unpacked image starts right after rows 0..i-1 |
| Tiff.MulGrows | system_hw01/tiff.c:372 | row starts grow with the row number |
| Tiff.RowFits | system_hw01/tiff.c:372-376 | the bytes of every row the loop reads lie inside the strip buffer |
| Tiff.RowPixel | system_hw01/tiff.c:373-377 | pixel j of a row is 255 exactly when bit j % 8 of byte j / 8 of the row is set |
| Tiff.PixelBit | system_hw01/tiff.c:372-379 | pixel (i, j) is 255 when its bit is set and 0 otherwise |
| Tiff.MostSignificantFirst | system_hw01/tiff.c:374-376 | the first pixel of a byte is its top bit and the eighth its bottom bit |
| Tiff.UnpackBits | system_hw01/tiff.c:369-381 | the nested unpacking loop yields the unpacked image |
| Tiff.UnpackRows | system_hw01/tiff.c:371-381 | the outer loop fills the pixel array with the unpacked rows |
| Tiff.RowsAppend | system_hw01/tiff.c:371-381 | rows 0..i-1 followed by row i are rows 0..i |
| Tiff.UnpackRow | system_hw01/tiff.c:373-380 | the inner loop writes row i at its base and nothing before it |
| Tiff.ColorChecked | system_hw01/tiff.c:249-254 | UNKNOWN_COLOR_SPACE is reported, with the value as data, exactly when the photometric interpretation is neither 0 nor 1; an image is returned only for 0 and 1 |
| Tiff.ColorIgnored | system_hw01/tiff.c:249-254 | WhiteIsZero and BlackIsZero give the same outcome |
| Tiff.ImageContents | system_hw01/tiff.c:264-386 | a returned image has the header's byte order mark and the width and length tags' values; its pixels are the strip bytes for 8 bits per sample, the unpacked bits for 1, and unset otherwise |
| Tiff.FinishImage | system_hw01/tiff.c:249-386 | the code after the IFD chain yields the image or error that the color, strip and unpacking rules give |
| Tiff.ReadFD | system_hw01/tiff.c:95-387 | readFD yields the outcome of the header, the IFD chain and the image rules |
| Tiff.NextOffsetReadRaw | system_hw01/tiff.c:240-247 | as written, a big-endian next IFD offset of 14 is followed as 0x0E000000 and a two-IFD chain ends in a read error with the first IFD's count 0 as data; converted, both IFDs are read |
| Tiff.CountFailureData | system_hw01/tiff.c:150-155 | a file cut at the second IFD reports READ_ERROR with the first IFD's count as data; one byte past it, with that byte as the count's low byte |
| Tiff.NextOffsetConverted | system_hw01/tiff.c:240-247 | with conversion, a next IFD offset written in either order is read back |
| Tiff.NextOffsetErrorUnset | system_hw01/tiff.c:242-245 | as written, a cut-off next offset stores READ_ERROR in data and leaves error unset; corrected, error is READ_ERROR with data 4 |
| Tiff.ChainFailuresReported | system_hw01/tiff.c:139-247 | corrected, every failure of the IFD chain reports READ_ERROR, apart from a chain that never ends |
| Tiff.PutWords | system_hw01/tiff.c:312 | an array of n uint32 values takes 4n bytes |
| Tiff.StripArraysReadRaw | system_hw01/tiff.c:312-328 | as written, a big-endian strip offset of 8 is read as 0x08000000; converted it is 8 |
| Tiff.StripArraysConverted | system_hw01/tiff.c:312-328 | with conversion, strip arrays written in either order are read back |
| Florist.SkipLength | system_hw5/121044046_main.c:216 | strtok_r skips the leading delimiters up to the first non-delimiter or the end |
| Florist.RunLength | system_hw5/121044046_main.c:216 | a token runs up to the next delimiter or the end |
| Florist.Strtok | system_hw5/121044046_main.c:216 | a token strtok_r returns is not empty and the rest after it is shorter than the input |
| Florist.TokensStep | system_hw5/121044046_main.c:216-229 | the tokens are the first token followed by the tokens of the rest, and none when only delimiters are left |
| Florist.TokensOfLine | system_hw5/121044046_main.c:214-239 | splitting a line of blank-separated tokens at " \n(),;:" gives the tokens back in order |
| Florist.RunOfToken | system_hw5/121044046_main.c:216 | a token followed by a delimiter is one whole run |
| Florist.StrtokToken | system_hw5/121044046_main.c:216 | strtok_r on a token, a blank and the rest hands out that token and leaves exactly the rest |
| Florist.DigitRun | system_hw5/121044046_main.c:221 | sscanf "%d" takes the digits a token starts with |
| Florist.Decimal | system_hw5/121044046_main.c:221 | a number's decimal form is a non-empty digit string |
| Florist.DecimalValue | system_hw5/121044046_main.c:221 | the value of a number's decimal digits is the number |
| Florist.DigitRunAll | system_hw5/121044046_main.c:221 | the digit run of digits followed by a non-digit is those digits |
| Florist.ScanShow | system_hw5/121044046_main.c:221-224 | sscanf "%d" reads back an integer written in decimal, negative ones included |
| Florist.ShowIsToken | system_hw5/121044046_main.c:220-224 | an integer written in decimal is one token |
| Florist.FloristRoundTrip | system_hw5/121044046_main.c:214-243 | a florist written as name, x, y, speed and flowers on one line is read back, speed aside |
| Florist.FloristLineTokens | system_hw5/121044046_main.c:214-239 | the tokens of a florist line are its fields followed by its flowers |
| Florist.FloristOfTokens | system_hw5/121044046_main.c:215-239 | the florist read from a line has the first token as name, the next two as coordinates and every token after the speed as a flower |
| Florist.ClientRoundTrip | system_hw5/121044046_main.c:108-124 | a client written as name, x, y and flower on one line is read back |
| Florist.ReadFloristLine | system_hw5/121044046_main.c:215-239 | the token calls of one florist line yield the florist its fields give |
| Florist.NextToken | system_hw5/121044046_main.c:220 | strtok_r on the rest of a line yields its first token and a shorter rest, or nothing when no token is left |
| Florist.FourTokens | system_hw5/121044046_main.c:216-227 | four tokens taken one after another are the first four tokens |
| Florist.ReadFlowers | system_hw5/121044046_main.c:229-239 | the flower loop collects every remaining token, in order |
| Florist.ReadFlorists | system_hw5/121044046_main.c:206-248 | readFlorists appends one florist per line in order until EOF or the one-byte line, and the lines left are the ones after that line |
| Florist.ReadStep | system_hw5/121044046_main.c:214-243 | one more florist line keeps the loop invariant, or stops reading at a line that cannot be read |
| Florist.ReadEnd | system_hw5/121044046_main.c:214 | at EOF or the one-byte line the florists are complete and the next line follows it |
| Florist.FloristsStep | system_hw5/121044046_main.c:214-243 | a readable florist line contributes its florist first |
| Florist.FloristsEnd | system_hw5/121044046_main.c:214 | the florist section ends at EOF or at the one-byte line, and what follows starts one line further |
| Florist.SoldInExists | system_hw5/121044046_main.c:334-335 | a florist sells the wanted flower exactly when one of its flowers is a prefix of the wanted name |
| Florist.ClosestIn | system_hw5/121044046_main.c:331-348 | the choice among the first n florists is -1 or one of them |
| Florist.ClosestProperties | system_hw5/121044046_main.c:330-351 | the result is -1 exactly when no florist sells the flower; otherwise it sells it, is at least as close as every seller and strictly closer than every seller before it |
| Florist.ClosestUnique | system_hw5/121044046_main.c:330-351 | those properties determine the chosen florist |
| Florist.FindClosestFlorist | system_hw5/121044046_main.c:330-351 | the nested loop yields the closest seller, the first among equals, or -1 |
| Florist.OrderQueue.constructor | system_hw5/121044046_main.c:135 | a florist's queue starts empty |
| Florist.OrderQueue.Add | system_hw5/121044046_main.c:135-143 | an order goes to the end of the queue, and becomes the head of an empty one |
| Florist.OrderQueue.Take | system_hw5/121044046_main.c:273-275 | the florist takes the head order and the queue is what followed it |
| Florist.RoutedMembers | system_hw5/121044046_main.c:126-145 | a client is in florist i's queue exactly when it was read and i is its closest florist |
| Florist.RoutedSnoc | system_hw5/121044046_main.c:126-145 | one more client adds itself to its own florist's queue only |
| Florist.RoutedAll | system_hw5/121044046_main.c:126-145 | one more client adds itself to its florist's queue and leaves every other queue as it was |
| Florist.DispatchClients | system_hw5/121044046_main.c:108-146 | after the client loop each florist's queue holds the clients routed to it in the order read; the rejected clients are those nobody sells to |
| Florist.Route | system_hw5/121044046_main.c:126-145 | one client's order goes to its closest florist's queue or is reported as rejected, and every queue keeps its routing invariant |
| Florist.ClientsStep | system_hw5/121044046_main.c:108-124 | a readable client line contributes its client first |
| Florist.ClientsEnd | system_hw5/121044046_main.c:108 | the client section ends at EOF or at the one-byte line |
| Florist.ServeRemaining | system_hw5/121044046_main.c:292-311 | after the day ends the florist serves every order left, head first, one sale each, and the queue is empty |

## Left out

- System calls. `read`, `open`, `lseek`, `pipe`, `fork`, `execvp`, `dup2`, `close` and `getline` are not run: their answers are parameters. The descriptor model keeps only which numbers each process holds.
- Output. `perror`, `printf`, the DERROR logging macros, the empty `builtin()` and the help printers are only output and are left out.
- hw5 threads and timing. `floristJob`'s waits, the barrier, mutexes and condition variables, `usleep`, `rand_r` delivery times, the sales and time totals, and thread setup and clean-up are concurrency or timing and are left out. Florist.ServeRemaining keeps the order and the count of the orders served after the day ends.
- Floating point. The `%lf` speed and the `sqrt`/`pow` distance are left out. Florist.Dist is the squared integer distance. It orders florists as the C `double` distance does for coordinates of modest size. Once coordinate differences pass about 2^26, distinct squared distances can round to the same `double`, and the C comparison may then call two florists equally near.
- Memory aliasing. The lexeme pointers into the line buffer that dangle after the buffer grows do not exist in the model: tokens carry their text as a value.
- Tokenizer.Tokenizer.Next and the shell above it read through the corrected `Reader.Reader.GetcFixed` and the corrected `Dynamic.Dynamic.Append`. The defects of those two (see Findings) would otherwise garble every later token.
- Shell.ParseCommand: for a KEYWORD first token, `args[0]` reads the builtin's keyword code through the wrong member of the union (121044046_main.c:122). The model stores the keyword code and does not model reinterpreting it as a pointer.
- Shell.ParseCommand: the arguments are a sequence. Its contract states exactly when the C array of 100 slots suffices; writes past the 100 slots are not modelled.
- Shell.ParseCommand: parseCommand receives the tokenizer by value (121044046_main.c:105, 197). When the copy's line buffer grows, dynamic_add frees the old block (dynamic.c:21-24), which main's struct still points at, so main's next call works on freed memory. The model keeps main's block alive with its contents and gives the copy a new one.
- Reader.Reader.Getc: reading `buff[offset]` past the 1024 bytes is undefined behaviour in C. The model returns NUL and sets `overran`, and the shell stops there.
- Tokenizer.Tokenizer.StringByte reads the byte in front of a quote before appending the quote, at the same position the C code reads after appending it, because an append leaves the earlier bytes as they were.
- Tiff.Decode: a tag that no IFD entry filled is uninitialised memory in C, and so is a too-small strip buffer read past its end. These give the outcome `Unmodelled` rather than a value.
- Tiff.Decode: the seek-error branches cannot be taken. `lseek`'s -1 converts to `true` in the `bool error`, which never equals -1, so `lseek` is taken to succeed. The `malloc` failure paths and the stray `sleep(100)` at tiff.c:280 are left out.
- Tiff.Decode: the host is little-endian, and multi-byte fields read without conversion are taken as little-endian.
- Tiff.CountLeft: before the first IFD ifd.count is uninitialised, so a failed read of the first entry count gives `None` as data, also when one byte of it was read (its high byte stays uninitialised).
- Tiff.Follow: the IFD chain has no cycle check, so it is followed with a fuel bound. Running out of fuel gives `Runaway`, and Tiff.SelfLinkedRunsAway shows that a self-linked IFD runs away whatever the fuel.
- Tiff.Decode: for a 1-bit image, a width or height that overflows the C `int` loop counters or the `uint32` pixel index is outside `Tracked`. It gives `Unmodelled`.
- Florist.ScanInt: a value outside the range of `int` is not modelled.
- Florist.ReadFlorists and Florist.DispatchClients: a line with fewer than four tokens hands a null token to `strlen` or `sscanf` and crashes the program. The model stops reading there and reports `defined == false`.
- Florist.Matches is `strncmp(flower, wanted, strlen(flower)) == 0` on NUL-free strings, that is, the florist's flower name is a prefix of the wanted one.
- Wc.Count: a failed read follows the `ssize_t` correction and stops the loop. As written, `rb` is a `size_t`, so the loop goes on and reads SIZE_MAX bytes from a 1024-byte buffer, which is undefined behaviour (wc.c:42-58). Wc.FailedReadKeepsLooping shows the as-written loop does not stop.
- Wc.CountAndPrint: it counts with Wc.Count, so a failed read is reported and stops the count as in the corrected code.
- Wc.WcMain: only its argument loop is as written. Each file is counted with the corrected Wc.Count, not with the undefined behaviour of a failed read as written.
- Wc.WcMain: the `%d` format used to print the `size_t` counters is not modelled. The counts are returned as numbers.
- `system_hw02`, `system_hw4`, `system_hw01/main.c`, `system_hw3/cat.c` and the `debug.h` files are not part of this model. They are signal, process and semaphore exercises, a printing driver, a copy loop and logging macros.

## Findings

| source | as written | input that shows it | evidently intended | confidence | as-written member | corrected member |
|---|---|---|---|---|---|---|
| system_hw3/reader.c:19-27 | a refill does not reset `offset`, so the byte after a refill comes from the new chunk at the old offset | two reads answering "ls\n" then "pwd\n": the 4th getc returns '\n' instead of 'p' | reset `offset` to 0 when the buffer is refilled | not executed | Reader.AsWrittenSkipsBytes | Reader.FixedYieldsConcatenation |
| system_hw3/dynamic.c:23 | on growth, `sizeof(dynamic->used)` bytes (8) of the old block are copied, not `used` bytes | 1023 bytes 'a' in use, then one more byte: position 8 is no longer 'a' | copy `used` bytes | not executed | Dynamic.AddAsWrittenLosesBytes | Dynamic.AppendContents |
| system_hw3/121044046_main.c:235-252 | the shell closes a pipe's write end only after forking the next stage, so that stage inherits it and never sees end of file | the line "ls", bar, "wc", newline: wc holds the write end of its own input pipe | close the write end in the shell right after the writer is forked | not executed | Launch.ReaderHoldsWriteEnd | Launch.ReaderSeesEnd |
| system_hw3/wc.c:42-58 | `rb` is a `size_t`, so a failed read (-1) becomes SIZE_MAX and the loop goes on | a descriptor whose read fails: SIZE_MAX bytes are counted from a 1024-byte buffer, and the `rb == -1` report is never reached | declare `rb` as `ssize_t` | not executed | Wc.FailedReadKeepsLooping | Wc.Count |
| system_hw3/wc.c:23 | the argument loop starts at index 2 and skips `argv[1]` | `wc f` prints nothing | start at index 1 | not executed | Wc.OneFileIgnored | Wc.OneFileCounted |
| system_hw01/tiff.c:240-247 | the next IFD offset is read without byte-order conversion | a big-endian file with a second IFD at offset 14: the chain goes to offset 0x0E000000 and fails with READ_ERROR | convert it with be32toh/le32toh like the other fields | not executed | Tiff.NextOffsetReadRaw | Tiff.NextOffsetConverted |
| system_hw01/tiff.c:242-245 | when reading the next IFD offset fails, READ_ERROR is stored in `err->data` and `err->error` is left unset | a little-endian file whose only IFD stops before its next offset | set `err->error = READ_ERROR` and `err->data` to the size read | not executed | Tiff.NextOffsetErrorUnset | Tiff.ChainFailuresReported |
| system_hw01/tiff.c:312-328 | the strip offset and byte count arrays are read without byte-order conversion | a big-endian file with several strips, the first at offset 8: it is read at 0x08000000 | convert each entry in the file's byte order | not executed | Tiff.StripArraysReadRaw | Tiff.StripArraysConverted |

In the Tiff module, the corrected behaviour of the last three rows is selected by the `fixed` parameter of Tiff.Decode and Tiff.ReadFD.
