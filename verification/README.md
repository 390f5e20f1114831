# Telegram TXT → VCF bot: a verified model of its core

bot.py is a Telegram bot that turns lists of phone numbers into vCard files.
It works in three ways:

- **TXT mode.** A user uploads a `.txt` of numbers. The bot cuts the list into
  files of `contacts_per_file` cards each, named `{vcf_prefix}{n}.vcf`, and
  sends them as one zip archive. It can first show a preview of the first ten
  cards.
- **Admin and Neavy modes.** Pasted text becomes one `.txt` copy and one `.vcf`,
  with cards labelled `Admin-1`, `Admin-2`, … (or `Neavy-…`).
- **Settings.** A per-chat settings menu holds the two prefixes and the two
  start numbers. Every contact is labelled `{contact_prefix}{n}`, and the
  numbering runs on from file to file.

The model pulls the deterministic logic out of the handlers and writes it as
pure Dafny functions:

- `Strings` covers the pieces of Python's `str` the bot relies on:
  - `splitlines` and `strip`, over Python's exact sets of line boundaries and
    whitespace;
  - `"\n".join`;
  - `isdigit`, `int` and `str` of non-negative integers.
- `Numbers` turns text into the list of numbers (stripped, non-blank lines).
  It also adds the `+` in front of a number that lacks it.
- `VCard` is the block the bot writes per contact:
  `BEGIN:VCARD`, `VERSION:3.0`, `FN:`, a bare `TEL:`, `END:VCARD`. It is a
  subset of vCard 3.0 (RFC 2426). The module also has a decoder for exactly
  that layout, proved to invert the encoder in both directions.
- `Split` covers `generate_vcfs` and `preview_vcf`:
  - the chunks and the passes of the outer loop;
  - the archive, as the ordered list of (file name, content) pairs written
    into it;
  - the preview;
  - the two loops of `generate_vcfs` as methods, proved to build exactly that
    archive.
- `Session` holds the per-chat record and the store of all chats. It models:
  - `start`, `button_handler`, `handle_file` and `handle_text` as transitions
    from (session, event) to (session, replies, raised);
  - the callback data of the inline keyboards;
  - how a typed value is stored, as an `int` when it is all digits and as
    a string otherwise.

Some details of what bot.py does, which the model follows exactly:

- It writes a bare `TEL:` line.
- It only prepends `+` to a number and removes nothing.
- It names files `{vcf_prefix}{file_num}.vcf` with no template.
- It accepts `0` as `contacts_per_file`, after which generating with numbers
  loaded raises an exception (`Session.ZeroPerFileAccepted`,
  `Session.GenerateGuards`).

## Model

| member | source | states |
|---|---|---|
| `Strings.Strip` | bot.py:115 | `strip()` leaves no whitespace at either end and never lengthens the string |
| `Strings.StripInner` | bot.py:115 | what `strip()` keeps is the string with an all-whitespace head and tail cut off |
| `Strings.StripNoLineBreak` | bot.py:115 | stripping a line never introduces a line boundary |
| `Strings.StripClean` | bot.py:115 | a string with no whitespace at its ends is left unchanged by `strip()` |
| `Strings.SplitLines` | bot.py:196 | `splitlines()` gives lines without any line boundary, and no lines only for the empty text |
| `Strings.SplitLinesRejoin` | bot.py:196 | the lines `splitlines()` returns, each followed by the boundary consumed after it, spell out exactly the text, and form a valid reading of it |
| `Strings.SplitLinesUnique` | bot.py:196 | any valid reading of a text as lines and boundaries (`\r\n`, or one boundary character; only the last line may end at the text's end, and then is non-empty; a `\r` is never split from the `\n` after it) is the one `splitlines()` returns |
| `Strings.SplitLinesIff` | bot.py:196 | `splitlines()` returns a list of lines exactly when some boundaries make those lines a valid reading of the text |
| `Strings.SplitJoinRoundTrip` | bot.py:196-198 | joining non-empty, break-free lines with `\n` and splitting again gives back exactly those lines |
| `Strings.NatToString` | bot.py:163 | `str(n)` is a digit string with no superfluous leading zero |
| `Strings.ParseNatToString` | bot.py:187 | `int(str(n)) == n` |
| `Strings.NatToStringParse` | bot.py:187 | `str(int(s)) == s` exactly when the digit string `s` has no superfluous leading zero |
| `Strings.NatToStringInjective` | bot.py:165 | different numbers are written differently |
| `Numbers.CleanLines` | bot.py:115 | the list comprehension keeps at most as many entries as there are lines, each non-empty, stripped and break-free |
| `Numbers.CleanLinesMembers` | bot.py:115 | a string is kept exactly when it is the non-empty stripped form of some line |
| `Numbers.CleanLinesOne` | bot.py:115 | a single line is kept, stripped, exactly when it is not blank |
| `Numbers.CleanLinesOrder` | bot.py:115 | the comprehension distributes over concatenation, so the kept numbers stay in the lines' order |
| `Numbers.ExtractNumbers` | bot.py:196 | every extracted number is non-empty, stripped and break-free |
| `Numbers.ExtractMembers` | bot.py:196 | a string is extracted exactly when it is the non-empty stripped form of a line of the text |
| `Numbers.ExtractJoinRoundTrip` | bot.py:196-198 | extracting from the newline-join of extracted numbers returns those numbers in order |
| `Numbers.ExtractIdempotent` | bot.py:196-198 | extraction applied to its own joined output changes nothing |
| `Numbers.Normalize` | bot.py:162 | the result starts with `+`; it is the number itself exactly when that already started with `+`, and otherwise `+` followed by it |
| `Numbers.NormalizeIdempotent` | bot.py:135 | normalising twice is normalising once |
| `Numbers.NormalizeAddsOnlyPlus` | bot.py:201 | for a number without `+`, normalisation adds exactly one character, the `+`, in front |
| `VCard.EncodeAllAppend` | bot.py:160-164 | appending blocks to the file text distributes over concatenation of card lists |
| `VCard.EncodeAllSnoc` | bot.py:163 | `vcf_data +=` one block extends the text by exactly that card's block |
| `VCard.DecodeCardEncode` | bot.py:163 | the block of a card whose fields contain no `\n` reads back as that card, and reading stops right after the block |
| `VCard.DecodeCardSound` | bot.py:163 | whatever is read as one block is exactly the block of a `\n`-free card |
| `VCard.DecodeEncodeAll` | bot.py:136 | every list of `\n`-free cards survives encoding and decoding unchanged |
| `VCard.DecodeSound` | bot.py:202 | decoding accepts only text that is the encoding of the cards it returns |
| `VCard.DecodeIff` | bot.py:163 | decoding yields a card list exactly when the text is that list's encoding |
| `Split.LabelledAt` | bot.py:161-164 | the j-th card of a run is labelled `prefix + str(start + j)` and carries the j-th number with `+` |
| `Split.LabelledAppend` | bot.py:156-164 | numbering runs on across a split: the second part continues where the first stopped |
| `Split.LabelledTelPlus` | bot.py:162 | every TEL value written starts with `+` |
| `Split.ChunksFlatten` | bot.py:158-159 | concatenating the chunks in order gives back the number list |
| `Split.ChunksSizes` | bot.py:158-159 | every chunk but the last holds exactly k numbers, the last between 1 and k, and there are chunks exactly when there are numbers |
| `Split.ChunksCount` | bot.py:158 | the number c of chunks satisfies `(c - 1) * k < n <= c * k` |
| `Split.ChunksCountDiv` | bot.py:158 | there are `(n + k - 1) / k` chunks, as many as `range(0, n, k)` has elements |
| `Split.ChunkMember` | bot.py:159 | every number in a chunk is one of the loaded numbers |
| `Split.VcfNameInjective` | bot.py:165 | two file numbers give the same file name only if they are equal |
| `Split.PlanAt` | bot.py:156-167 | pass i writes chunk i as file `fileNum + i`, numbering its contacts on from all earlier chunks |
| `Split.WrittenAt` | bot.py:165-166 | entry i of the archive is the one pass i writes |
| `Split.WrittenSnoc` | bot.py:166 | one more pass adds exactly one entry, at the end |
| `Split.PlanContents` | bot.py:156-166 | the entries read one after another are the cards of all chunks in one run, numbered without restarting |
| `Split.GenerateCount` | bot.py:158 | the archive holds ceil(n / k) files, and none exactly when there are no numbers |
| `Split.GeneratePassAt` | bot.py:156-167 | pass i writes chunk i as file `vcf_start + i` with contacts from `contact_start + i * k`; chunks are full except the last |
| `Split.GenerateFileAt` | bot.py:159-166 | file i is named `{vcf_prefix}{vcf_start + i}.vcf` and holds the cards of chunk i numbered from `contact_start + i * k` |
| `Split.GenerateNameAt` | bot.py:165 | file i is named after file number `vcf_start + i` |
| `Split.GenerateNamesDistinct` | bot.py:165-166 | no two files of the archive share a name |
| `Split.GenerateContents` | bot.py:156-166 | the archive read file after file is the cards of all numbers labelled `contact_prefix + str(contact_start + j)` |
| `Split.GenerateFileCards` | bot.py:159-166 | when the contact prefix and the numbers contain no `\n`, file i decodes to exactly the cards of chunk i: k of them, or between 1 and k in the last file |
| `Split.PreviewIsPrefix` | bot.py:131-137 | the preview text is a prefix of the archive's concatenated contents |
| `Split.PreviewCards` | bot.py:131-137 | when the contact prefix and the numbers contain no `\n`, the preview decodes to the first min(10, n) cards, numbered from `contact_start` |
| `Split.ChunksFrom` | bot.py:158-159 | from offset i, the chunks are the slice `nums[i:i+k]` followed by the chunks from `i + k` |
| `Split.PassesFromChunks` | bot.py:156-167 | what the outer loop still does from offset i is the plan for the chunks of the numbers from i on |
| `Split.EncodeChunk` | bot.py:160-164 | the inner loop builds exactly the blocks of the chunk's labelled cards and advances `contact_num` by the chunk's length |
| `Split.WriteChunk` | bot.py:159-166 | one pass of the outer loop writes the entry `{vcf_prefix}{file_num}.vcf` with the chunk's cards |
| `Split.GenerateVcfs` | bot.py:154-167 | the two loops of `generate_vcfs` write exactly the archive `Split.Generate` describes |
| `Session.KeyNamed` | bot.py:72 | a name maps to a setting only if it is that setting's name |
| `Session.ParseCallback` | bot.py:53-80 | callback data is mapped to a button only if it is that button's data |
| `Session.ParseCallbackData` | bot.py:41-44 | every keyboard button's callback data selects the branch meant for it |
| `Session.Stored` | bot.py:187 | a value is stored as an integer exactly when it is all digits |
| `Session.RenderStored` | bot.py:187 | a stored value reads back as typed exactly when it is not a digit string with a leading zero |
| `Session.RenderStoredLeadingZeros` | bot.py:187 | the prefix `007` is stored as 7 and comes back as `7` |
| `Session.Assign` | bot.py:187 | storing changes only the chosen setting, to the stored form of the value, and not `mode`, `waiting_for` or `numbers` |
| `Session.HandleWellFormed` | bot.py:116 | no event puts anything but extracted numbers into a session |
| `Session.StepWellFormed` | bot.py:17 | every chat's loaded numbers stay extracted numbers, whatever event arrives |
| `Session.StepFrame` | bot.py:51-54 | an event changes only its own chat's entry, which exists afterwards |
| `Session.StepLazyCreation` | bot.py:51-52 | a chat without an entry behaves exactly like one holding the defaults |
| `Session.StartResets` | bot.py:19-37 | `/start` resets the chat to the defaults (100, `contacts`, 1, `Contact`, 1, no mode, not waiting, no numbers) and welcomes |
| `Session.ButtonFrame` | bot.py:56-80 | buttons never touch settings or numbers; mode buttons set only `mode`, `set_` buttons only `waiting_for` |
| `Session.FileGate` | bot.py:109-120 | outside TXT mode a file changes nothing; in TXT mode it replaces `numbers` wholesale and reports their count and first fifty |
| `Session.SettingsEntry` | bot.py:181-190 | a reply to `set_` clears `waiting_for` and keeps `mode` and `numbers`; non-digits for a counter change no setting; otherwise only the chosen setting changes, to the stored value |
| `Session.ZeroPerFileAccepted` | bot.py:184-187 | `0` passes the number check, so `contacts_per_file` can become 0 |
| `Session.GenerateGuards` | bot.py:150-158 | generation changes no state; with no numbers it sends only the notice; it raises exactly when there are numbers and `contacts_per_file` is 0 |
| `Session.GenerateArchive` | bot.py:154-171 | one archive `{vcf_prefix}_all.zip` of ceil(n / k) distinctly named files whose contents, in order, are all the cards numbered on from `contact_start` |
| `Session.PreviewReply` | bot.py:129-139 | the preview leaves the session as it is and is the beginning of the archive whenever one can be generated; when the contact prefix has no `\n`, it decodes to the first min(10, n) cards |
| `Session.SingleFileText` | bot.py:196-198 | the Admin/Neavy `.txt` extracts back to exactly the message's numbers |
| `Session.SingleFileCards` | bot.py:195-206 | the Admin/Neavy `.vcf` decodes to cards labelled `{Admin,Neavy}-{j+1}` carrying the j-th number with `+` |
| `Session.SingleFileDocuments` | bot.py:192-206 | Admin/Neavy text leaves the session as it is and sends the `.txt` and then the `.vcf` |
| `Session.SingleFileIgnoresSettings` | bot.py:195-202 | the Admin/Neavy documents depend on the mode and the text alone, not on the prefixes or starts |
| `Session.TextIgnored` | bot.py:192-193 | outside Admin and Neavy mode, text that answers no `set_` button is ignored |

## Left out

- Telegram transport is left out. This covers `Update`, replies, message edits, inline keyboards, Markdown and message wording. Replies are tags carrying the data they show.
- `main()` and handler routing are left out. The four event kinds stand for the four registered handlers; the model does not check `.txt` extensions or whether a message is a command.
- `zipfile` and `BytesIO` (bot.py:154-155, 169-171) are left out. The archive is the ordered list of (name, content) pairs written into it, and the zip's own name is a plain string.
- The download and the UTF-8 decoding with `errors="ignore"` (bot.py:113-114) are left out, and so is the UTF-8 encoding of the Admin/Neavy documents (bot.py:198, 203). Contents are modelled as decoded strings.
- `isdigit` is modelled for the ASCII digits only. Python also accepts other Unicode digits; for some of them `int()` then raises. Whitespace and line boundaries, by contrast, are Python's full sets.
- Callback data that no keyboard of the bot sends is left out. An example is a forged `set_mode`, which bot.py would store under `waiting_for`. `Session.ParseCallback` answers None for such data.
- Split generation requires `contacts_per_file > 0`. With 0, `range` raises, and the handler models that only as `raised` with no reply and no state change.
- Session.PreviewReply: the decoding half is stated only for a contact prefix without `\n`. bot.py would store such a prefix from a multi-line reply, and its cards then no longer read back line by line. The prefix half holds for every prefix.
- Split.GenerateFileCards: the decoding is stated only when the contact prefix and the numbers contain no `\n`, for the same reason. Extracted numbers never contain one; the prefix can.
- Split.PreviewCards: the decoding is stated only when the contact prefix and the numbers contain no `\n`, as for `Split.GenerateFileCards`. `Split.PreviewIsPrefix` holds for every input.
- The async structure and `TOKEN` are left out, because handlers run one event at a time.
- `bot (1).py`, a step-by-step variant of the bot, is not part of this model.
