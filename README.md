# mailarchive: the IMAP reader and the SQLite store, in Dafny

mailarchive copies the mail of IMAP accounts into a local archive. This
project models the two parts of it that decide what ends up in the archive.

**The IMAP side (mailarchive/emails.py), in module `Emails`:**
- `IMAPFolders` turns the lines of a LIST response into
  `(flags, delimiter, name)` triples. It uses the pattern
  `\((?P<flags>.*?)\) "(?P<delimiter>.*)" (?P<name>.*)` with `re.match`, then
  strips the quotes from the name.
- The `scheme` setter of `IMAP` accepts only `imap` and `imaps`.
- `count`, `list` and `fetch` turn the server's responses into results.

**The SQLite archive (the `Database` class of mailarchive/database.py), in module `Archive`:**
- The constructor creates the schema when the database holds no object.
- `exists` tells whether a message, identified by its Message-Id header, is
  already stored for an account and folder.
- `store` writes one account row, one row per header and one message row
  with the chosen body.
- `close` commits and closes.

**Support modules:**
- `Message`: a parsed email message and the case-insensitive header lookup
  `mail[name]`.
- `Text`: the string primitives the code relies on. These are SQLite
  `upper()`, the `in` substring test, `split()`, `strip('"')` and `int()`.
- `Wrappers`: `Option`, which stands for Python's None and SQL's NULL, and
  `Result`, which stands for a raised exception.

**How the database is represented.** The database file is a `Location` value:
- the schema objects, which stand for the rows of `sqlite_master`;
- the rows of the three tables.

The `Database` class holds the connection's view of these as fields and
keeps the last committed `Location` in a field of its own. Each of its
methods states its new state in full. `Database.Store` is proved against
the pure function `Archive.Stored`, which gives the location after one
`store`. The lemmas about `Stored` state the
properties of the whole store:
- after a store, `exists` finds the message;
- storing twice is the same as storing once;
- a message without a Message-Id is appended again every time;
- deduplication is scoped to one account and folder.

## Model

| member | source | states |
|---|---|---|
| `Emails.MatchIndices` | mailarchive/emails.py:24-25 | The pattern fails to match exactly when no `(`…`) "`…`" ` split of the line exists. On a match, the flags end at the earliest `) "` (lazy `.*?`), and the delimiter ends at the latest `" ` after it (greedy `.*`) |
| `Emails.LineEnd` | mailarchive/emails.py:24-25 | `.` does not match a newline, so only the text before the first newline can take part in the match |
| `Emails.ListLineRoundTrip` | mailarchive/emails.py:30-40 | A LIST line `(flags) "delimiter" name`, with the name quoted or bare, is read back as the groups it was written from. After the quotes are stripped, the folder triple is recovered |
| `Emails.StripName` | mailarchive/emails.py:37 | `strip('"')` changes only the name. The kept part is one contiguous slice of the name; everything cut off before and after it is `"`; and the result neither starts nor ends with `"` |
| `Emails.NilDelimiterNoMatch` | mailarchive/emails.py:24-33 | A LIST line with a NIL delimiter, such as `(\Noselect) NIL INBOX`, does not match the pattern when no `"` occurs elsewhere on the line, so `__next__` hits `.groups()` on None |
| `Emails.NoQuotedDelimiterNoMatch` | mailarchive/emails.py:24-33 | A line without any `" ` never matches |
| `Emails.ImapFolders.Next` | mailarchive/emails.py:30-40 | Past the last line: StopIteration, with the index unchanged. On a line that does not match: the AttributeError case, with the index unchanged. Otherwise: the parsed triple, and the index advances by one |
| `Emails.ImapFolders.constructor` | mailarchive/emails.py:22-25 | The iterator starts at line 0 of the given data |
| `Emails.Imap.constructor` | mailarchive/emails.py:51-55 | A new connection object has no scheme set (`_scheme` is None) |
| `Emails.Imap.SetScheme` | mailarchive/emails.py:124-128 | `imap` and `imaps` are stored. Any other scheme raises `TypeError("scheme not supported: " + scheme)` and leaves the stored scheme as it was |
| `Emails.Count` | mailarchive/emails.py:179-184 | A non-OK status gives `(status, -1)`. An OK status gives the integer of the first data line, or IndexError on empty data, or ValueError on text that is not an integer. The result is Ok exactly when that line parses |
| `Emails.CountReportsExists` | mailarchive/emails.py:179-182 | A SELECT reply of OK with `n` as its first data line is counted as `n` |
| `Emails.List` | mailarchive/emails.py:193-202 | The status is passed through. The result holds one entry per data line, in order, and each entry is that line's whitespace-separated identifiers |
| `Emails.ListRecoversIds` | mailarchive/emails.py:198-200 | When every search line lists identifiers separated by spaces, the result `List` promises is exactly those identifiers, line by line |
| `Emails.Fetch` | mailarchive/emails.py:212-225 | An IMAP error gives `("KO", None)`. A message is returned exactly when the status is OK, `data[0]` carries a message, and building it does not raise; a TypeError gives `("KO", None)`. Any other reply gives `(status, None)` |
| `Text.DecimalRoundTrip` | mailarchive/emails.py:182 | `int()` reads back any decimal rendering of an integer, with or without a sign |
| `Text.SplitJoinWords` | mailarchive/emails.py:199 | `split()` of words joined by single spaces gives the words back |
| `Text.StripIsTrimmedSlice` | mailarchive/emails.py:37 | `strip(c)` removes exactly the leading and trailing runs of `c` and keeps the slice between them |
| `Message.LookupIsFirstMatch` | mailarchive/database.py:85 | `mail[name]` is None exactly when no header has the name, ignoring case. Otherwise it is the value of the first such header |
| `Message.LookupIgnoresCase` | mailarchive/database.py:116 | Looking up `Message-Id` under names that differ only in ASCII case gives the same value |
| `Archive.Database.constructor` | mailarchive/database.py:22-45 | The schema is created only when `sqlite_master` counts no object. A location that already holds schema objects is used as it is. An empty location gets the three tables, created empty and committed |
| `Archive.Database.CreateSchema` | mailarchive/database.py:47-68 | The three CREATE statements add `accounts`, `headers` and `messages` in order. The rows are unchanged, and the result is committed |
| `Archive.Database.Close` | mailarchive/database.py:70-76 | An open connection is committed and closed. On a closed one, the error is swallowed and nothing changes |
| `Archive.Database.StoreAccount` | mailarchive/database.py:78-80 | Appends exactly one `(account, folder)` row |
| `Archive.Database.StoreHeaders` | mailarchive/database.py:82-85 | Appends one header row per header of the message, in message order; nothing else changes |
| `Archive.HeaderRowsHoldFirstValues` | mailarchive/database.py:84-85 | Each header row holds the header's own name and the value of the first header of that name. A repeated header therefore stores its first value every time, and no stored value is NULL |
| `Archive.WalkForBody` | mailarchive/database.py:90-100 | The loop that walks the parts returns the body `SelectBody` defines |
| `Archive.SelectBodySpec` | mailarchive/database.py:90-100 | A multipart message gives the payload of the first text/plain part whose disposition does not mention "attachment", or "" when there is none. Any other message gives its own payload |
| `Archive.DispositionRule` | mailarchive/database.py:94-96 | A text/plain part without Content-Disposition qualifies as the body, because "attachment" is not in "None". One whose disposition mentions "attachment" does not |
| `Archive.FirstBodyPayloadIsFirstMatch` | mailarchive/database.py:92-98 | The `break` stops at the first qualifying part, and the body stays "" when no part qualifies |
| `Archive.Database.StoreBody` | mailarchive/database.py:87-102 | Appends one message row: the account, the Message-Id (NULL when the message has none) and the selected body |
| `Archive.Database.Exists` | mailarchive/database.py:113-122 | True exactly when some header row of this account and folder is named Message-Id, in any case, and holds the message's Message-Id |
| `Archive.HasMessageIffRow` | mailarchive/database.py:113-122 | `Count(*) > 0` holds exactly when some row satisfies the WHERE clause |
| `Archive.NoMessageIdNeverExists` | mailarchive/database.py:113-116 | A message without a Message-Id is never found, because `headervalue = NULL` is never true in SQL |
| `Archive.Database.Store` | mailarchive/database.py:124-129 | The tables after the call are `Stored` of the tables before it. The folder name is `folder[2]`, and nothing is committed |
| `Archive.StoreThenExists` | mailarchive/database.py:124-129 | After a message with a Message-Id is stored, `exists` finds it for that account and folder |
| `Archive.StoreIdempotent` | mailarchive/database.py:124-129 | Storing a message that has a Message-Id a second time changes nothing |
| `Archive.StoreTwice` | mailarchive/database.py:124-129 | Two `store` calls on a `Database` with the same message leave the tables as one call does |
| `Archive.StoreWithoutMessageIdAppends` | mailarchive/database.py:102-129 | A message without a Message-Id is stored again on every call: one more account row, one more message row with a NULL msgid, and the same header rows a first store writes, one per header |
| `Archive.StoreIsScoped` | mailarchive/database.py:113-129 | Storing in one account and folder does not change what `exists` reports for any other account or folder |
| `Archive.SameMessageInTwoFolders` | mailarchive/database.py:87-129 | `messages` has no folder column, so the same message stored in two folders of one account gives two identical message rows |

## Left out

- **The MongoDB class.** `MongoDB` depends on the pymongo client, MongoDB
  query semantics and bson encoding, so it is not part of this model.
- **The other IMAP accessors.** The `host`, `port`, `user` and `password`
  properties only store and return a value, so they are not modelled.
- **Network operations.** `open`, `close`, `folders` and the other calls
  into `imaplib` are not modelled. Server replies are given values: `Reply`,
  `FetchReply`, and the lines given to `ImapFolders`.
- **SQLite itself.** The pragma `journal_mode=WAL` has no effect on the
  tables, so it is not modelled. The shadow tables that FTS5 adds are not
  modelled either: each CREATE statement counts as one schema object. Rows
  are kept in insertion order, and full-text search is not modelled.
- **Atomicity.** `store` runs without a transaction of its own. The model
  applies it as one step and does not model a failure partway through.
- **A location that is not an archive.** A location that already holds
  schema objects is assumed to hold the three tables. For any other
  populated SQLite file, `_checkschema` skips the CREATE statements and the
  first `exists` raises `sqlite3.OperationalError` (no such table). The
  model does not raise there: `Store` appends rows to that location.
- **A closed connection.** `exists` and `store` on a closed connection raise
  `sqlite3.ProgrammingError`. The class requires an open connection for
  them instead.
- **Context manager.** `__enter__` and `__exit__` only call `close` and are
  left out.
- **Python's email parser.** Parsing and decoding are not modelled. A
  message is given as its headers in order, whether it is multipart, its
  parts in `walk()` order with content type, Content-Disposition and decoded
  payload, and its own payload. The root of a multipart message (a
  `multipart/*` or `message/*` one) is never `text/plain`, so it is left
  out of the parts. `fetch`
  receives the parser as a function that returns None where
  `message_from_string` raises TypeError.
- **Bytes and text.** `bytes.decode()`, payloads as bytes, and the
  `errors="replace"` decoding are not modelled: every value is a string. A
  `data[0]` of another shape, such as the bare `b')'` some servers send,
  is not modelled either.
- **Header names.** Only ASCII case is folded, both in the comparison of
  header names and in SQLite's `upper()`.
- Text.ParseInt: weaker than CPython's `int()`. It does not accept `_` digit
  separators, or non-ASCII digits and whitespace.
- **The command-line program and the configuration classes.** mailarchive.py
  (the command-line entry point), and mailarchive/email.py and src/email.py
  (property bags without behaviour), are not part of this model. Neither are
  the older copies emails.py and database.py at the repository's root, whose
  only logic, the scheme check, is the one modelled here.
