# PET 2001 utilities and memory bus, modelled in Dafny

This project models two pieces of a browser-based Commodore PET 2001 emulator.

**The utility codecs of `commodore/js/utilsc8dd.js`:**
- `txt2Basic` tokenizes BASIC source text into a linked program image.
- `basic2Txt` lists the image back as text.
- `convertToPrg` copies the program in memory into a PRG file.
- `hexDump` and `hexDumpBasic` give the memory dumps.
- `hex` prints hexadecimal.
- `disassemble` is the 6502 disassembler, with its opcode and step tables.
- The D64 disk-image reader covers the track map, `getSectorOffset`, `parseDirectory`, and the lookup and sector-chain walk of `loadFile`.

**The memory bus `Pet2001hw` of `commodore/js/pet2001hwc9d0.js`:**
- the memory map constants;
- `reset`, `writeRom`, `readRam`, `writeRam` and `setRamsize`;
- `read` and `write` over RAM, ROM, video RAM and the I/O window;
- the text snapshot `save` / `load`.

## Modules

| file | module | models |
|---|---|---|
| common.dfy | Common | bytes, little-endian words, reads past the end as 0, JavaScript's `\| 0` |
| numtext.dfy | NumText | `toString(16)`, `String(n)`, `hex(n, l)`, `parseInt` on a digit prefix |
| keywords.dfy | Keywords | the tokenizer's keyword table and the lister's token names |
| lexer.dfy | Lexer | `getCh`, the case adjustment and the keyword table walk of `txt2Basic` |
| tokenizer.dfy | Tokenizer | the `txt2Basic` parse loop, error texts, line sorting and link generation |
| program.dfy | Program | the linked-line program image and following its links |
| listing.dfy | Listing | the record walk of `basic2Txt` over memory |
| detokenizer.dfy | Detokenizer | `basic2Txt`'s rendering of a line |
| prg.dfy | Prg | `convertToPrg` |
| hexdump.dfy | HexDump | `hexDump`, `hexDumpBasic` |
| disassembler.dfy | Disassembler | `opctab`, `steptab`, `disassemble` |
| d64.dfy | D64 | track map, sector offsets, directory, file lookup and sector chains |
| bus.dfy | Bus | `Pet2001hw` memory map, `read`, `write`, `reset`, ROM and RAM copies |
| snapshot.dfy | Snapshot | `Pet2001hw.save` and `Pet2001hw.load` |

## Behaviour taken from the code

Where the system's documentation and its code differ, the model follows the code:
- **Line numbers.** A line number of 63999 or more is rejected. The limit constant is 63999 and the test is `>=`.
- **Parse errors.** A parse error still returns the program built from the lines stored before it, together with the error text.
- **DATA.** After a DATA token the rest of the line is copied without tokenizing. Characters are still case-adjusted, π is kept and other bytes with bit 7 set are dropped. The colon test that would end this mode (commodore/js/utilsc8dd.js:281) is never reached. In DATA mode the DATA branch (:249-250) copies `:` unchanged; outside DATA mode the digit branch (:256) does.
- **Token 0xB0.** It lists as `ON`, because the lister's table has `ON` where the tokenizer has `OR`.
- **Symbols.** `disassemble` always replaces the caller's symbol table with an empty one. The model therefore has no symbol table. A `JMP ($xxxx)` labels its vector address like any other jump.
- **Raw bytes.** The disassembler writes the third raw byte of an instruction with `hex(n)` and no width, so it is not zero-padded.
- **loadFile.** It copies every sector of a file whole, the last one included.
- **Bus.** `setRamsize` does not clear RAM, and `reset` does not change the RAM size.
- **writeRom.** It picks the ROM region with `addr > IO_ADDR`. A ROM written at exactly 0xE800 therefore lands at ROM index 0x2800, which reads back at 0xF000.
- **convertToPrg and hexDumpBasic.** They do not follow line links. They scan for zero bytes (see Findings).

## Model

| member | source | states |
|---|---|---|
| Common.At | commodore/js/utilsc8dd.js:793-795 | a read inside memory gives the stored byte; a read outside gives 0, as `getMem` and `mem[a] \|\| 0` do |
| Common.LE16Decodes | commodore/js/utilsc8dd.js:312-316 | a link or line number pushed low byte first reads back as the same 16-bit value through `lo + (hi << 8)` |
| Common.ToInt32 | commodore/js/utilsc8dd.js:345 | `Number(a) \| 0` stays in the signed 32-bit range and leaves every value already in it unchanged |
| NumText.DigitsValue | commodore/js/utilsc8dd.js:597-601 | the digits `toString(16)` or `String(n)` print evaluate back to the number printed |
| NumText.HexValue | commodore/js/utilsc8dd.js:597-601 | `hex(n, l)` is upper case, at least `l` characters long, and its value is `n`; left-padding with '0' changes nothing |
| NumText.HexWidth | commodore/js/utilsc8dd.js:597-601 | a value below 16^l is printed by `hex(n, l)` in exactly `l` digits |
| NumText.Decimal | commodore/js/utilsc8dd.js:349 | `String(n)` is a non-empty run of decimal digits whose value is `n` |
| NumText.ParseDigits | commodore/js/pet2001hwc9d0.js:150 | `parseInt` of a printed number followed by a non-digit returns that number |
| Keywords.Entries | commodore/js/utilsc8dd.js:147-148 | the ROM 1.0 table is the full table without its last entry, GO: 75 entries against 76, the others unchanged and in order |
| Keywords.EntryByte | commodore/js/utilsc8dd.js:56-132 | every byte of a table entry is 7-bit ASCII except the last, which has bit 7 set |
| Keywords.FlatTableLayout | commodore/js/utilsc8dd.js:56-134 | in the flat byte table, byte `j` of entry `k` sits at the entry's offset plus `j`, before the closing 0 |
| Keywords.FlatTableLength | commodore/js/utilsc8dd.js:56-134 | the flat table is the entries back to back followed by exactly one 0 |
| Keywords.TablesDifferOnlyAtOr | commodore/js/utilsc8dd.js:334-343 | the lister's 76 names equal the tokenizer's keywords except entry 48, which is OR in one and ON in the other |
| Lexer.GetCh | commodore/js/utilsc8dd.js:150-188 | a read gives 0 at the end of the text or at a line end, otherwise a byte of at least 0x20; it consumes input unless at the end; it folds case only in lower-case mode |
| Lexer.CaseAdjust | commodore/js/utilsc8dd.js:190-200 | an upper-case letter switches lower-case mode off and is kept; a lower-case letter switches it on and is folded to upper case; other bytes keep the mode |
| Lexer.ReadsPlain | commodore/js/utilsc8dd.js:157-186 | a printable byte that is neither π nor a line end reads as itself and advances one byte |
| Lexer.UngetLineEnd | commodore/js/utilsc8dd.js:284-289 | stepping back one byte after a line end makes the next read give the same line end again, CR LF included |
| Lexer.NextHigh | commodore/js/utilsc8dd.js:275 | the skip to the end of an entry stops at the first table byte with bit 7 set, and every byte before it is 7-bit |
| Lexer.EntryStep | commodore/js/utilsc8dd.js:263-271 | comparing the text with one entry either finds the token within the entry, runs through the entry, or misses |
| Lexer.Search | commodore/js/utilsc8dd.js:262-279 | the walk that stops once it runs past the table never hangs |
| Lexer.SearchTable | commodore/js/utilsc8dd.js:262-279 | the corrected keyword search always ends |
| Lexer.SearchTableCorrectsOnlyHang | commodore/js/utilsc8dd.js:262-279 | wherever the search as written ends, the corrected search gives the same outcome; where the search as written never ends, the corrected one finds no keyword |
| Lexer.SearchByEntries | commodore/js/utilsc8dd.js:262-279 | the byte-by-byte walk over the flat table equals the walk entry by entry |
| Lexer.SearchWithinEntry | commodore/js/utilsc8dd.js:263-278 | inside an entry, the walk's outcome is decided by the entry comparison and the walk over the following entries |
| Lexer.SearchMissesEntry | commodore/js/utilsc8dd.js:272-277 | a mismatch skips to the next entry with the input rewound, and ends with no match after the last entry |
| Lexer.SearchHitsEntry | commodore/js/utilsc8dd.js:268-270 | a difference of exactly 0x80 ends the walk with the current entry's token; that difference is a shifted-letter abbreviation or the entry's last letter |
| Lexer.TokenIndexInTable | commodore/js/utilsc8dd.js:269 | a token the walk finds always names an entry of the table |
| Lexer.FirstMatch | commodore/js/utilsc8dd.js:56-134 | the reference definition: the first entry in table order whose letters the text starts with, or none |
| Lexer.EntryStepSevenBit | commodore/js/utilsc8dd.js:263-267 | on 7-bit text an entry gives its token exactly when the text spells the entry |
| Lexer.ByEntriesSevenBit | commodore/js/utilsc8dd.js:262-279 | on 7-bit text the entry walk from entry `k` yields the first entry from `k` on that the text spells |
| Lexer.SearchFirstMatch | commodore/js/utilsc8dd.js:262-279 | on 7-bit text the search yields the token of the first entry in table order that the text spells, with the count of further bytes it used, and no match when none is spelt |
| Lexer.InputHashBeforeInput | commodore/js/utilsc8dd.js:61-62 | "INPUT#" becomes token 0x84 and "INPUT" not followed by '#' becomes 0x85: the table order lets the longer keyword win |
| Lexer.GoIsLastToken | commodore/js/utilsc8dd.js:132 | "GO " becomes token 0xCB, the last entry |
| Lexer.NoGoOnRom1 | commodore/js/utilsc8dd.js:148 | on ROM 1.0 "GO " is not a keyword at all |
| Lexer.RunThroughLast | commodore/js/utilsc8dd.js:264-276 | text that spells the last entry exactly, followed by a character that is not 0x80 away from 0, runs the walk onto the closing 0 and past it: as written it never ends, corrected it finds no keyword |
| Lexer.RunThroughLastHit | commodore/js/utilsc8dd.js:264-270 | text that spells the last entry exactly, followed by a character 0x80 away from 0, ends the walk on the closing 0 with the last entry's token, as written and corrected alike |
| Lexer.MidDollarRunsOffRom1Table | commodore/js/utilsc8dd.js:264-276 | on ROM 1.0 the bytes "MID" followed by 0xA4 and a line end make the keyword walk run off the table; corrected, no keyword is found |
| Lexer.MidDollarThenHighByte | commodore/js/utilsc8dd.js:264-270 | on ROM 1.0 the bytes "MID", 0xA4 and 0x80 end the walk with MID$'s token, as written and corrected alike |
| Tokenizer.NumberFrom | commodore/js/utilsc8dd.js:211-217 | the line-number loop stops at the first byte that is neither a digit nor a space; the line is direct only if no such byte was read; the number never shrinks |
| Tokenizer.NumberOfPlainDigits | commodore/js/utilsc8dd.js:211-217 | a run of digits and spaces accumulates as `ln * 10 + d` for each digit, ignores the spaces, and leaves the reader after the byte that ends the run |
| Tokenizer.Quoted | commodore/js/utilsc8dd.js:239-248 | a string literal is copied byte for byte up to and including its closing quote, or to the line end when unclosed; it never holds a 0 |
| Tokenizer.RemTail | commodore/js/utilsc8dd.js:283-289 | after REM the rest of the line is copied verbatim, without a 0 |
| Tokenizer.AfterSearch | commodore/js/utilsc8dd.js:280-290 | the byte the keyword search settles on is emitted first and the output holds no 0 |
| Tokenizer.KeywordSearch | commodore/js/utilsc8dd.js:259-279 | the keyword walk always ends; a keyword it finds is an entry of the table, so its token byte is 0x80 plus an index below 0x7F, and the reader after the keyword has not moved back |
| Tokenizer.KeywordToken | commodore/js/utilsc8dd.js:259-280 | the byte the keyword step pushes is never 0, and the step reads on in the same text and case mode without moving back |
| Tokenizer.KeywordIsFirstMatch | commodore/js/utilsc8dd.js:259-279 | on 7-bit text the keyword step emits the token of the first table entry the text spells, with the reader after it; with no such entry it emits the character and leaves the reader in place |
| Tokenizer.Step | commodore/js/utilsc8dd.js:232-291 | bytes from 0x80 up are dropped except π (0xFF); '?' becomes PRINT outside DATA; digits, ':' and ';' are copied; the DATA token switches raw mode on |
| Tokenizer.Body | commodore/js/utilsc8dd.js:231-294 | a tokenized line never holds a 0 byte, and the reader never moves back |
| Tokenizer.DataModeStep | commodore/js/utilsc8dd.js:231-251 | in DATA mode a character other than a quote is taken after case adjustment, so a lower-case letter is pushed in upper case; π is kept, any other byte with bit 7 set is dropped, and the mode stays on |
| Tokenizer.DataCopiesRestOfLine | commodore/js/utilsc8dd.js:249-251 | in upper-case mode, after DATA a run of printable bytes from 0x20 to 0x5F without quotes, colons and keyword letters included, is copied unchanged up to a CR, LF or NUL line end or the end of the text |
| Tokenizer.ParseFrom | commodore/js/utilsc8dd.js:208-302 | every stored line has a number below 63999, no 0 byte and at most 88 bytes; an error names the current or a later source line; lines stored earlier are kept |
| Tokenizer.ParseStoresLine | commodore/js/utilsc8dd.js:211-300 | a numbered line within the limits is stored under its number, replacing an earlier line of that number, and parsing goes on with the next source line |
| Tokenizer.ParseStopsAtIllegalNumber | commodore/js/utilsc8dd.js:218-221 | a line number of 63999 or more stops the parse with an illegal-line-number error on the current source line, keeping the lines stored so far |
| Tokenizer.ParseStopsAtMissingNumber | commodore/js/utilsc8dd.js:222-227 | a line with content but no line number stops the parse with a missing-line-number error on the current source line, keeping the lines stored so far |
| Tokenizer.ParseStopsAtLongLine | commodore/js/utilsc8dd.js:295-298 | a numbered line of more than 88 token bytes stops the parse with a string-too-long error on the current source line; that line is not stored and the lines before it are kept |
| Tokenizer.Parse | commodore/js/utilsc8dd.js:202-302 | the parse of a whole text yields well-formed lines, and an error names a source line from 1 on |
| Tokenizer.Sorted | commodore/js/utilsc8dd.js:304-311 | the lines to link are stored lines with non-empty bodies and numbers below 63999, each with its stored body |
| Tokenizer.SortedAscending | commodore/js/utilsc8dd.js:307-308 | the lines are linked in strictly ascending line-number order |
| Tokenizer.SortedComplete | commodore/js/utilsc8dd.js:307-311 | a line number is linked exactly when it is stored with a non-empty body; emptied lines are left out |
| Tokenizer.SortedWellFormed | commodore/js/utilsc8dd.js:304-322 | the lines handed to link generation form a well-formed program: ascending numbers, non-empty bodies without 0 |
| Tokenizer.StartAddress | commodore/js/utilsc8dd.js:51-53 | the start address is 16 bits, `address & 0xFFFF`, and 0x0401 when no address is given |
| Tokenizer.Build | commodore/js/utilsc8dd.js:304-327 | link generation gives no bytes exactly when no line is left to link; otherwise its length is the linked records plus the two-byte end marker, plus two for a PRG file, whose first two bytes are the start address, low byte first |
| Tokenizer.Txt2Basic | commodore/js/utilsc8dd.js:17-329 | `txt2Basic` reports an error exactly when the parse stopped on one, and returns no program exactly when no stored line has a body left to link |
| Tokenizer.BuildLinksBack | commodore/js/utilsc8dd.js:304-325 | when the image fits below 64K, loading it at the start address and following its links from there visits the stored lines in order with their bodies |
| Tokenizer.ImageLinksBack | commodore/js/utilsc8dd.js:304-327 | the program `txt2Basic` returns, loaded at its start address, links through exactly the lines the parse stored |
| Tokenizer.PrgFileAddsLoadAddress | commodore/js/utilsc8dd.js:323-327 | a PRG file is the plain image preceded by the start address, low byte first; an empty program stays empty |
| Tokenizer.ExampleParse | commodore/js/utilsc8dd.js:218-221 | the text "10 ?", newline, "63999 ?" stores line 10 as a PRINT token and then stops on source line 2 with an illegal line number |
| Tokenizer.ExampleImage | commodore/js/utilsc8dd.js:309-325 | line 10 holding PRINT at 0x0401 is the image 07 04 0A 00 99 00 00 00 |
| Tokenizer.IllegalLineNumberKeepsEarlierLines | commodore/js/utilsc8dd.js:218-221 | on that text `txt2Basic` returns the image of line 10 together with "line 2: syntax error (illegal line number)." |
| Program.Size | commodore/js/utilsc8dd.js:313 | every linked line takes at least five bytes: link, number, one body byte and the closing 0 |
| Program.Encode | commodore/js/utilsc8dd.js:309-322 | the linked lines take exactly the sum of their record sizes |
| Program.Image | commodore/js/utilsc8dd.js:323-325 | a program without lines is empty; otherwise the records are followed by the two-zero end marker |
| Program.ProgramStart | commodore/js/utilsc8dd.js:345 | the listing and PRG scans start at 0x0401 when no address is given, and at the address itself when it is a positive 32-bit value |
| Program.BodyLength | commodore/js/utilsc8dd.js:354 | a line body runs to the first 0 byte and contains no 0 |
| Program.LineAt | commodore/js/utilsc8dd.js:347-354 | a record read from memory has a 16-bit line number and a body without 0 |
| Program.ReadRecord | commodore/js/utilsc8dd.js:347-349 | a record written by link generation reads back as its link and its line |
| Program.Chain | commodore/js/utilsc8dd.js:346-427 | following links visits at most as many lines as allowed, and a 0 link is an empty program |
| Program.ChainOfEncode | commodore/js/utilsc8dd.js:346-427 | following the links of encoded lines from their first address gives back exactly those lines |
| Program.ChainOfImage | commodore/js/utilsc8dd.js:304-327 | a program image loaded at its start address links back to its own lines |
| Listing.RecordAt | commodore/js/utilsc8dd.js:347-354 | the lister reads a record's body exactly as the link walk does |
| Listing.Walk | commodore/js/utilsc8dd.js:346-428 | the lister's walk lists nothing when the first link is 0 and never more records than its bound |
| Listing.WalkOfEncoded | commodore/js/utilsc8dd.js:346-428 | the lister's walk over a linked program yields one record per line, in link order |
| Listing.WalkFuel | commodore/js/utilsc8dd.js:346-428 | a walk that ends within a bound gives the same records under any larger bound |
| Listing.LoadedIsEncoded | commodore/js/utilsc8dd.js:304-327 | an image produced by link generation and loaded at its start is a linked program there |
| Listing.WalkOfLoaded | commodore/js/utilsc8dd.js:346-428 | memory holding a linked program lists exactly its lines |
| Listing.WalkOfImage | commodore/js/utilsc8dd.js:345-428 | `basic2Txt`'s walk over an image `txt2Basic` could build lists exactly its lines, in order |
| Prg.ChunkLength | commodore/js/utilsc8dd.js:669-673 | the as-written scan reads at least two bytes, and the last two it reads are both 0 |
| Prg.RecordLength | commodore/js/utilsc8dd.js:669-673 | the corrected scan also reads at least two bytes and stops right after two 0 bytes |
| Prg.ChunkScan | commodore/js/utilsc8dd.js:669-673 | the as-written scan copies memory from the start address unchanged and stops after a pair of 0 bytes |
| Prg.RecordScan | commodore/js/utilsc8dd.js:669-673 | the corrected scan also copies memory unchanged and ends after the two-zero end marker |
| Prg.WithLoadAddress | commodore/js/utilsc8dd.js:661-674 | the file is the two-byte load address followed by the bytes scanned, and empty when only the end marker was found |
| Prg.ConvertToPrgAsWritten | commodore/js/utilsc8dd.js:659-675 | as written: the file is empty exactly when the first link in memory is 0; otherwise it is longer than 6 bytes, starts with the load address and ends with two 0 bytes |
| Prg.ConvertToPrg | commodore/js/utilsc8dd.js:659-675 | corrected record scan: the same emptiness condition, load address and closing two 0 bytes as the as-written conversion |
| Prg.RecordScanOfEncode | commodore/js/utilsc8dd.js:669-673 | over a linked program the corrected scan copies exactly its records and the end marker |
| Prg.ConvertToPrgOfImage | commodore/js/utilsc8dd.js:659-675 | converting memory holding a program image gives the load address followed by that image |
| Prg.ConvertToPrgInvertsTxt2Basic | commodore/js/utilsc8dd.js:659-675 | converting memory loaded with `txt2Basic`'s image gives `txt2Basic`'s own PRG file |
| Prg.ChunkScanOvershoots | commodore/js/utilsc8dd.js:669-673 | for "10 PRINT" at 0x0401 the as-written scan copies one byte beyond the program when the next byte is 0, and more when it is not, while the corrected scan copies the image exactly |
| HexDump.DumpStyle | commodore/js/utilsc8dd.js:618-620 | `hexDump` puts the same prefix before every character column, the last one included |
| HexDump.BasicStyle | commodore/js/utilsc8dd.js:640-653 | `hexDumpBasic` drops the character-column prefix on its last row only |
| HexDump.Shown | commodore/js/utilsc8dd.js:612 | a byte from 0x20 to 0x60 shows as its character, every other byte as '.' |
| HexDump.Cell | commodore/js/utilsc8dd.js:611 | each byte takes three characters: a space and two hex digits |
| HexDump.Padding | commodore/js/utilsc8dd.js:623 | the last row is padded with three spaces per missing byte up to the next multiple of 8 |
| HexDump.Put | commodore/js/utilsc8dd.js:604-613 | at a multiple of 8 the previous row is closed with its character column and a new row header starts; elsewhere the byte is appended to the row |
| HexDump.Dump | commodore/js/utilsc8dd.js:604-626 | the byte loop only appends: the text built so far is a prefix of the finished dump |
| HexDump.OpensWithHeader | commodore/js/utilsc8dd.js:604-610 | a non-empty dump from a multiple of 8 opens with that address's row header |
| HexDump.HexDump | commodore/js/utilsc8dd.js:615-616 | a start past the end and an end below the start give their two error texts |
| HexDump.DumpIsRows | commodore/js/utilsc8dd.js:604-625 | the byte-by-byte dump from an aligned address equals the rows of 8 bytes rendered whole |
| HexDump.HexDumpRows | commodore/js/utilsc8dd.js:603-627 | an aligned dump is one row per 8 bytes: address header, hex cells, character column, and the last row padded to full width |
| HexDump.HexDumpUnaligned | commodore/js/utilsc8dd.js:603-627 | a dump from an address that is not a multiple of 8 starts with a row without an address header: the cells of the bytes up to the next multiple of 8 and their character column, then the aligned rows; when the range ends inside that first row, it is padded to full width and closed as the last row |
| HexDump.HexDumpBasicRows | commodore/js/utilsc8dd.js:629-655 | the corrected BASIC dump shows the rows from 0x0400 through the end marker of the linked program |
| HexDump.HexDumpBasicAsWrittenRows | commodore/js/utilsc8dd.js:629-655 | the as-written BASIC dump shows the rows from 0x0400 through whatever the zero-byte scan took |
| HexDump.HexDumpBasicAsWritten | commodore/js/utilsc8dd.js:629-655 | as written: the BASIC dump always opens with the row header for 0x0400, in the style chosen |
| HexDump.HexDumpBasic | commodore/js/utilsc8dd.js:629-655 | corrected record scan: the BASIC dump also always opens with the row header for 0x0400 |
| Detokenizer.AfterKeyword | commodore/js/utilsc8dd.js:371-375 | a PRINT keyword starts print mode; MID$, LEFT$, RIGHT$, LEN, VAL and ASC start string-function mode with no open parenthesis; others change nothing |
| Detokenizer.AfterChar | commodore/js/utilsc8dd.js:416-423 | a colon ends both modes; the closing parenthesis of a string function ends that mode; outside a string function nothing changes |
| Detokenizer.Separator | commodore/js/utilsc8dd.js:379 | string pieces are joined by ';' exactly in print mode outside a string function, otherwise by '+' |
| Detokenizer.QuoteLength | commodore/js/utilsc8dd.js:381-387 | a string literal ends at its first quote or at the end of the line |
| Detokenizer.QuoteText | commodore/js/utilsc8dd.js:378-415 | a listed string is never empty: an empty literal lists as `""` |
| Detokenizer.RemText | commodore/js/utilsc8dd.js:362-370 | a REM comment lists as at most one character per byte: printable ASCII and π are kept, other bytes dropped |
| Detokenizer.Render | commodore/js/utilsc8dd.js:354-425 | a line body of plain ASCII bytes without a quote lists as those characters, one per byte, unchanged |
| Detokenizer.AsTextCons | commodore/js/utilsc8dd.js:414-421 | a plain byte's character is followed by the listing of the rest of the body |
| Detokenizer.Basic2Txt | commodore/js/utilsc8dd.js:345-348 | memory whose first link is 0 lists as the empty text |
| Detokenizer.ListingOfWalk | commodore/js/utilsc8dd.js:346-429 | the listing is the text of each record the walk finds, joined by newlines |
| Detokenizer.ListingOfImage | commodore/js/utilsc8dd.js:333-430 | a program image loaded at its start lists as the text of its lines, one per line, in order |
| Detokenizer.UnknownTokenDropped | commodore/js/utilsc8dd.js:358-377 | a byte with bit 7 set that names no keyword (0xCC to 0xFE) lists as nothing, and the rest of the line lists as if it were absent |
| Detokenizer.PiLists | commodore/js/utilsc8dd.js:355-357 | the byte 0xFF lists as π and leaves the listing state unchanged |
| Detokenizer.OrListsAsOn | commodore/js/utilsc8dd.js:340 | token 0xB0, which the tokenizer makes from OR, lists as ON |
| Detokenizer.TokenListsAsKeyword | commodore/js/utilsc8dd.js:358-361 | every other token except REM lists as the keyword it was tokenized from |
| Detokenizer.RemListsRest | commodore/js/utilsc8dd.js:362-370 | REM lists as "REM" followed by the rest of the line's comment text, whatever tokens it holds |
| Detokenizer.RemTextOfPlain | commodore/js/utilsc8dd.js:365 | a comment of printable ASCII lists unchanged |
| Detokenizer.QuotedPlainString | commodore/js/utilsc8dd.js:378-415 | a string literal of printable ASCII lists between quotes, unchanged |
| Detokenizer.ControlByteJoined | commodore/js/utilsc8dd.js:404-411 | a control byte in a string closes the quote, and the separator then joins `CHR$(code)` |
| Detokenizer.ColonResetsSeparator | commodore/js/utilsc8dd.js:371-379 | after PRINT strings join with ';', inside MID$ with '+', and a colon resets to '+' |
| Detokenizer.TenPrintLists | commodore/js/utilsc8dd.js:333-430 | memory holding 07 04 0A 00 99 00 00 00 at 0x0401 lists as "10 PRINT" |
| Disassembler.Text | commodore/js/utilsc8dd.js:679-744 | the mnemonic text is empty exactly for the undocumented opcodes |
| Disassembler.Opcode | commodore/js/utilsc8dd.js:679-744 | an opcode the table leaves undocumented is the one-byte implied entry, whatever its position in the table |
| Disassembler.Step | commodore/js/utilsc8dd.js:745-759 | every addressing mode takes one to three bytes |
| Disassembler.Length | commodore/js/utilsc8dd.js:803 | every instruction takes one to three bytes |
| Disassembler.Signed | commodore/js/utilsc8dd.js:849-855 | a branch offset is the signed byte congruent to the offset byte modulo 256 |
| Disassembler.BranchTarget | commodore/js/utilsc8dd.js:849-856 | a branch target is the address after the branch plus the signed offset, wrapped to 16 bits |
| Disassembler.OpcodeMap | commodore/js/utilsc8dd.js:679-744 | undocumented opcodes are one-byte implied; relative mode belongs exactly to the eight branches; JMP and JSR are exactly 0x20, 0x4C and 0x6C |
| Disassembler.UndocumentedIsOneByte | commodore/js/utilsc8dd.js:801-803 | an undocumented opcode takes one byte and lists as `.byte $xx` |
| Disassembler.Starts | commodore/js/utilsc8dd.js:925-926 | the instruction addresses run from the start while they are at most the end |
| Disassembler.StartsTile | commodore/js/utilsc8dd.js:926 | each instruction starts where the previous one ends, and the last one reaches past the end address |
| Disassembler.StartsIncrease | commodore/js/utilsc8dd.js:926 | instruction addresses strictly increase |
| Disassembler.CollectTargets | commodore/js/utilsc8dd.js:896-901 | a label is only placed on an address inside the range that is RAM below 0x8000 or ROM |
| Disassembler.LabelsAreTargets | commodore/js/utilsc8dd.js:867-901 | an address gets a label exactly when some instruction of the pass branches or jumps to it and it passes the label filter |
| Disassembler.IndirectJumpLabelsVector | commodore/js/utilsc8dd.js:887-889 | `JMP ($xxxx)` labels its vector address like a direct jump would |
| Disassembler.ListingFollowsStarts | commodore/js/utilsc8dd.js:930-931 | the listing pass prints one line for each instruction address of the label pass, in order |
| Disassembler.RawBytesLength | commodore/js/utilsc8dd.js:805-815 | the raw-bytes column is 3 characters per byte less one, and one less again when an operand's high byte below 0x10 prints as one digit |
| Disassembler.Disassemble | commodore/js/utilsc8dd.js:917-920 | a negative start or end gives its error text |
| Disassembler.DisassemblyLayout | commodore/js/utilsc8dd.js:916-932 | the listing is the origin line, one line per instruction with the collected labels, and the `.end` line |
| Disassembler.DisassemblyCovers | commodore/js/utilsc8dd.js:921-926 | start and end wrap to 16 bits; an end below the start means the end of memory; the instructions cover the range exactly |
| D64.TrackMap | commodore/js/utilsc8dd.js:958-1001 | tracks 1 to 42 exist, each with 17 to 21 sectors |
| D64.TrackMapIsZoned | commodore/js/utilsc8dd.js:958-1001 | the table equals the zone rule: 21, 19, 18 and 17 sectors per track by zone, each track starting where the previous ends |
| D64.TrackMapAbuts | commodore/js/utilsc8dd.js:958-1001 | each track's byte offset is the previous offset plus 256 bytes per previous sector |
| D64.SectorsDisjoint | commodore/js/utilsc8dd.js:958-1001 | two different sectors never overlap in the image |
| D64.SectorOffset | commodore/js/utilsc8dd.js:1139-1156 | a sector has an offset exactly when its track exists, its sector number is below the track's count, it lies wholly inside the image and it was not seen before in this walk |
| D64.Chain | commodore/js/utilsc8dd.js:1108-1116 | a chain starting at track 0 is complete and empty; a bad or repeated first sector breaks the walk |
| D64.ChainVisitsOnce | commodore/js/utilsc8dd.js:1142-1151 | a sector chain visits each sector at most once and only sectors inside the image |
| D64.ChainFollowsLinks | commodore/js/utilsc8dd.js:1110-1114 | each sector of a chain is the one the previous sector's first two bytes link to, and a complete chain ends at a link to track 0 |
| D64.FileStep | commodore/js/utilsc8dd.js:1110-1116 | a file is the 254 payload bytes of its first sector followed by the rest of the chain |
| D64.FileWalkSucceeds | commodore/js/utilsc8dd.js:1108-1116 | reading a file succeeds exactly when its chain is complete, and then yields 254 bytes per sector, the last sector included |
| D64.Payload | commodore/js/utilsc8dd.js:1115 | every sector contributes 254 bytes |
| D64.FileWalkReadsChain | commodore/js/utilsc8dd.js:1115 | the file read is the payloads of the chain's sectors, in chain order |
| D64.TypeName | commodore/js/utilsc8dd.js:1071-1072 | file types 0 to 4 have names and every other type is unnamed |
| D64.FileName | commodore/js/utilsc8dd.js:1076-1080 | a name has at most 16 characters, each printable and not shifted space |
| D64.FileNameFilters | commodore/js/utilsc8dd.js:1076-1080 | the name is the printable bytes of the name field before its first 0 |
| D64.NulOrEnd | commodore/js/utilsc8dd.js:1078 | the name ends at its first 0 byte or at the end of the field |
| D64.Slots | commodore/js/utilsc8dd.js:1069-1086 | a directory sector yields at most 8 entries, all of type PRG |
| D64.SlotsStep | commodore/js/utilsc8dd.js:1081-1085 | a slot that is not empty lists its entry if it is a PRG, and the scan goes on with the next slot |
| D64.SlotsAreListed | commodore/js/utilsc8dd.js:1081-1085 | every listed entry comes from a PRG slot with no empty slot before it |
| D64.ListedSlotsAreAll | commodore/js/utilsc8dd.js:1081-1085 | every PRG slot with no empty slot before it is listed |
| D64.DirWalk | commodore/js/utilsc8dd.js:1064-1087 | the directory lists only PRG entries |
| D64.DirWalkFollowsChain | commodore/js/utilsc8dd.js:1061-1088 | the directory is the entries of each sector of the chain from track 18 sector 1, in chain order |
| D64.Directory | commodore/js/utilsc8dd.js:1061-1088 | `parseDirectory` lists only PRG entries, and nothing for an image too short to hold track 18 sector 1 |
| D64.Upper | commodore/js/utilsc8dd.js:1093 | upper-casing maps each ASCII lower-case letter to upper case and keeps every other character |
| D64.FindName | commodore/js/utilsc8dd.js:1094-1099 | the name search finds the first entry with that name, or reports that none has it |
| D64.Lookup | commodore/js/utilsc8dd.js:1090-1107 | a name selects the first entry named as the upper-cased name; a number selects that entry when it is in range; otherwise no file |
| D64.LoadFile | commodore/js/utilsc8dd.js:1104-1123 | `loadFile` finds no file exactly when the lookup fails, and a load address is 16 bits |
| D64.LoadFileFails | commodore/js/utilsc8dd.js:1108-1123 | a load breaks exactly when the file's chain is incomplete, and has no address exactly when the chain is empty |
| D64.LoadFileReadsChain | commodore/js/utilsc8dd.js:1108-1123 | a loaded file's address and bytes together are the payloads of its chain's sectors |
| Bus.ReadByRegion | commodore/js/pet2001hwc9d0.js:98-118 | with at most 32K of RAM each address answers from its region: RAM, video RAM, ROM at 0xC000-0xE7FF and 0xF000-0xFFFF, I/O at 0xE800-0xEFFF, and 0x55 elsewhere |
| Bus.Read | commodore/js/pet2001hwc9d0.js:98-118 | a read is handed to video RAM or I/O only at or above the RAM size, at an offset inside that window that gives back the address |
| Bus.RamShadows | commodore/js/pet2001hwc9d0.js:101-102 | every address below the RAM size reads RAM, even above 32K |
| Bus.Write | commodore/js/pet2001hwc9d0.js:120-132 | a write is stored exactly when it is below the RAM size; any other write leaves the bus state unchanged |
| Bus.ReadAfterWrite | commodore/js/pet2001hwc9d0.js:120-132 | a RAM cell reads back the byte written, and every other address reads as before |
| Bus.RomIsReadOnly | commodore/js/pet2001hwc9d0.js:120-132 | a write into ROM above the RAM size is dropped and changes nothing |
| Bus.ResetFill | commodore/js/pet2001hwc9d0.js:58 | reset sets the 32K RAM array to 0x44 |
| Bus.Reset | commodore/js/pet2001hwc9d0.js:53-59 | reset clears both interrupt lines and keeps the RAM size and the ROM |
| Bus.ResetReads | commodore/js/pet2001hwc9d0.js:53-59 | after reset every RAM cell below 32K holds 0x44, and cells above keep their values |
| Bus.SetRamsize | commodore/js/pet2001hwc9d0.js:90-92 | the RAM size becomes the size given |
| Bus.ResizeKeepsRam | commodore/js/pet2001hwc9d0.js:90-92 | resizing does not clear RAM: cells below both sizes read as before, and resizing back restores the state |
| Bus.WriteRom | commodore/js/pet2001hwc9d0.js:71-78 | writing ROM changes neither RAM, the RAM size nor the interrupt lines |
| Bus.RomReadsBack | commodore/js/pet2001hwc9d0.js:71-78 | an image written inside one ROM region above the RAM size reads back at the addresses it was written to |
| Bus.FullRomImage | commodore/js/pet2001hwc9d0.js:71-78 | a 14K image written at 0xC000 shows its first 10K at 0xC000 and its last 4K at 0xF000, with I/O in between |
| Bus.RomAtIoBase | commodore/js/pet2001hwc9d0.js:73-76 | an image written at exactly 0xE800 does not show there; it lands in the cells that read at 0xF000 |
| Bus.ReadRam | commodore/js/pet2001hwc9d0.js:80-83 | copying out gives `len` cells, cell `i` being RAM at `addr + i` |
| Bus.WriteRam | commodore/js/pet2001hwc9d0.js:85-88 | copying in changes neither ROM, the RAM size nor the interrupt lines |
| Bus.RamCopiesRoundTrip | commodore/js/pet2001hwc9d0.js:80-88 | RAM copied in reads back the same; cells outside the range are untouched; writing back what was read changes nothing |
| Snapshot.IndexOf | commodore/js/pet2001hwc9d0.js:155 | `indexOf` gives the first position of the character, or -1 exactly when it is absent |
| Snapshot.SplitJoin | commodore/js/pet2001hwc9d0.js:149 | splitting pieces joined by a separator they do not contain gives the pieces back |
| Snapshot.RamTextHoldsNoSemicolon | commodore/js/pet2001hwc9d0.js:137-138 | the saved RAM cells never contain the field separator ';' |
| Snapshot.ParseCells | commodore/js/pet2001hwc9d0.js:153-157 | the cell loop restores one byte per RAM cell below the size |
| Snapshot.ParseRamText | commodore/js/pet2001hwc9d0.js:153-157 | the saved RAM text parses back to the saved cells, in order |
| Snapshot.SaveFields | commodore/js/pet2001hwc9d0.js:134-146 | a snapshot splits into five fields: the RAM size in hex, the cells, both interrupt lines in decimal, and the I/O record |
| Snapshot.Save | commodore/js/pet2001hwc9d0.js:134-146 | a snapshot splits at ';' into at least five fields, the first four being the RAM size in hex, the cells, and both interrupt lines in decimal, whatever the I/O record holds |
| Snapshot.SplitFiveFields | commodore/js/pet2001hwc9d0.js:149 | four fields free of ';' joined before a last one split back into themselves followed by the last one's own pieces |
| Snapshot.Load | commodore/js/pet2001hwc9d0.js:148-163 | loading never changes the ROM |
| Snapshot.LoadSave | commodore/js/pet2001hwc9d0.js:134-163 | loading a snapshot restores the RAM size, both interrupt lines, the I/O record and every cell below the size, and leaves the cells above as they were |
| Snapshot.LoadSaveReads | commodore/js/pet2001hwc9d0.js:134-163 | after loading a snapshot every RAM address below its size reads as when it was saved |

## Left out

- **Input normalisation.** `txt2Basic`'s input normalisation (commodore/js/utilsc8dd.js:20-49, strings and typed arrays to a byte array) is not modelled. The source is taken as a sequence of bytes.
- **Dead code.** Two statements of `txt2Basic` are never reached, and the model leaves them out. One is the `if (!c) break` in the number loop. The other is the space-skipping loop of a direct line; it cannot run, because a direct line's first character is neither a digit nor a space.
- **Memory past the end.** In `basic2Txt`, a read past the end of memory is `undefined` in the source; the model reads 0. The two agree on links, line ends and comments. A line number whose low byte lies past the end prints as "NaN" in both; when only its high byte lies past the end, both read that byte as 0. They differ on a string left open at the very end of memory, which the source scans forever, appending `CHR$(undefined)`.
- **Walk bound.** `Listing.Walk` follows at most `|mem| + 1` links. A program whose links cycle, which the source lists forever, has no listing in the model. That a walk needing more links than this must revisit an address is a counting argument the model does not prove.
- Disassembler.Disassemble: the symbol dictionary, the symbol-length scan and the symbol list prepended to the listing are left out. The source always replaces the dictionary with an empty one, so that code has no effect.
- Tokenizer.KeywordToken: the tokenizer runs the corrected keyword walk `Lexer.SearchTable`. Where the source's walk never ends (a line spelling the last table entry exactly, then a character other than 0x80), the model finds no keyword and emits the character as itself. Everywhere else the two walks agree (`Lexer.SearchTableCorrectsOnlyHang`).
- **Mnemonics** are a datatype, with `Disassembler.Text` giving their spelling.
- HexDump.HexDump: its precondition excludes a dump whose end lies past the last byte, and a negative start that passes both bounds checks. In both cases the source reads `undefined` from outside the array, and formatting it with `hex` fails.
- **D64 disk image.**
  - Loading the image over the network or from a file is left out.
  - The directory display is left out.
  - The entry size, formatted with `toFixed(2)`, is left out, and so is the disk name. The size is 0.00 exactly when the block count is 0, which is the test the model keeps.
- D64.LoadFile: the tail after the bytes are read (commodore/js/utilsc8dd.js:1117-1136) is left out. This covers `minRam`, the RAM-size change, reset, the autorun and `ieeeLoadData`. `LoadFile` takes the directory as a parameter instead of the module variable.
- D64.LoadFile: `NoAddress` stands for the source computing `NaN` as the address of an empty file.
- D64.Upper: only ASCII letters are upper-cased, not all of Unicode.
- **File types.** The type names of `typeMap` are the `FileType` datatype.
- **Bus collaborators.** The I/O chips (`PetIO`) and video RAM are opaque. A read or write handed to them is returned as a `VideoRead`, `IoRead`, `VideoWrite` or `IoWrite` value. This leaves out `io.reset`, `cycle`, `setKeyrows`, `getRamSize` and `ieeeLoadData`. The I/O record of `save` and `load` is a string parameter.
- **Bus memory.** RAM and ROM are maps from address to byte; a missing key stands for `undefined`. The RAM size is a natural number.
- Snapshot.Save: it requires every RAM cell below the size to hold a byte, because the source calls `toString` on each one.
- Snapshot.Load: the model returns None for text that is not a saved snapshot. That means fewer than five fields, a field that is not a number, or a cell above 255. The source then stores `NaN` or the number. Leading whitespace, signs and `0x` prefixes accepted by `parseInt` are not modelled.
- **Rest of the emulator.** The emulator main loop, the keyboard mapping and the screen generator are not part of this model: pet2001main660a.js, petkeys3113.js, the key tracker and ScreenGenerator.

## Findings

| source | as written | input that shows it | evidently intended | confidence | as-written member | corrected member |
|---|---|---|---|---|---|---|
| commodore/js/utilsc8dd.js:262-279 | when the text matches the last table entry byte for byte, the walk compares the closing 0 with the next character; unless that character is 0x80, which ends the walk with the last entry's token, it goes past the table and never ends | on ROM 1.0, a line `10 MID` followed by the byte 0xA4 and a line end | no keyword matches, and the character is emitted as itself | not executed | Lexer.MidDollarRunsOffRom1Table | Lexer.SearchFirstMatch |
| commodore/js/utilsc8dd.js:669-673 | `convertToPrg` takes a 0 in a line-number high byte as the end of the line. It then reads the next link pair as line data and copies past the program's end marker | `10 PRINT` at 0x0401, stored as 07 04 0A 00 99 00 00 00 | copy the records up to and including the two-zero end marker | not executed | Prg.ChunkScanOvershoots | Prg.ConvertToPrgInvertsTxt2Basic |
| commodore/js/utilsc8dd.js:645-649 | `hexDumpBasic` uses the same zero-byte scan and dumps bytes past the program's end | `10 PRINT` at 0x0401 | dump through the end marker of the linked program | not executed | HexDump.HexDumpBasicAsWrittenRows | HexDump.HexDumpBasicRows |
