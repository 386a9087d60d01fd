/**
 * The SQLite archive store (class `Database` of mailarchive/database.py). The
 * database file is modelled as in-memory state: the objects its schema holds
 * (standing in for `sqlite_master`) and the rows of the `accounts`, `headers`
 * and `messages` tables. `durable` is what the last commit made permanent.
 */
module Archive {
  import opened Wrappers
  import opened Text
  import opened Message
  import Emails

  // ---------------------------------------------------------------------------
  // Tables
  // ---------------------------------------------------------------------------

  datatype AccountRow = AccountRow(account: string, folder: string)

  /** `headervalue` is NULL (None) only if a NULL was inserted. */
  datatype HeaderRow = HeaderRow(account: string, folder: string, name: string, value: Option<string>)

  /** `msgid` is NULL (None) for a message without a Message-Id header. */
  datatype MessageRow = MessageRow(account: string, msgid: Option<string>, body: string)

  /** The contents of a storage location. */
  datatype Location = Location(
    schema: seq<string>,
    accounts: seq<AccountRow>,
    headers: seq<HeaderRow>,
    messages: seq<MessageRow>)

  /** A location without schema objects has no tables, so no rows either. */
  predicate NoRowsWithoutSchema(loc: Location) {
    loc.schema == [] ==> loc.accounts == [] && loc.headers == [] && loc.messages == []
  }

  /** The objects the three CREATE statements of the schema add, in order. */
  const Tables: seq<string> := ["accounts", "headers", "messages"]

  // ---------------------------------------------------------------------------
  // `exists`: SELECT Count(*) FROM headers WHERE account = ? AND folder = ?
  //           AND Upper(headername) = ? AND headervalue = ?
  // ---------------------------------------------------------------------------

  /** SQL `=`: never true when either side is NULL. */
  predicate SqlEquals(a: Option<string>, b: Option<string>) {
    a.Some? && b.Some? && a.value == b.value
  }

  /** The WHERE clause of the `exists` query, for the Message-Id `msgid`. */
  predicate IsMessageIdRow(row: HeaderRow, account: string, folder: string, msgid: Option<string>) {
    && row.account == account && row.folder == folder
    && Upper(row.name) == Upper("Message-Id") && SqlEquals(row.value, msgid)
  }

  /** The number of rows the `exists` query counts. */
  function CountMatching(rows: seq<HeaderRow>, account: string, folder: string, msgid: Option<string>): nat {
    if rows == [] then 0
    else
      var here: nat := if IsMessageIdRow(rows[0], account, folder, msgid) then 1 else 0;
      here + CountMatching(rows[1..], account, folder, msgid)
  }

  /** `exists(account, folder, mail)` over the rows of `headers`. */
  predicate HasMessage(rows: seq<HeaderRow>, account: string, folder: string, mail: Mail) {
    CountMatching(rows, account, folder, MessageId(mail)) > 0
  }

  lemma {:induction false} CountMatchingAppend(a: seq<HeaderRow>, b: seq<HeaderRow>, account: string, folder: string, msgid: Option<string>)
    ensures CountMatching(a + b, account, folder, msgid) == CountMatching(a, account, folder, msgid) + CountMatching(b, account, folder, msgid)
  {
    if a != [] {
      assert (a + b)[1..] == a[1..] + b;
      CountMatchingAppend(a[1..], b, account, folder, msgid);
    } else {
      assert a + b == b;
    }
  }

  /** The count is positive exactly when some row satisfies the WHERE clause. */
  lemma {:induction false} HasMessageIffRow(rows: seq<HeaderRow>, account: string, folder: string, mail: Mail)
    ensures HasMessage(rows, account, folder, mail) <==>
      exists i :: 0 <= i < |rows| && IsMessageIdRow(rows[i], account, folder, MessageId(mail))
  {
    if rows != [] {
      HasMessageIffRow(rows[1..], account, folder, mail);
      assert forall i :: 1 <= i < |rows| ==> rows[i] == rows[1..][i - 1];
      if exists i :: 1 <= i < |rows| && IsMessageIdRow(rows[i], account, folder, MessageId(mail)) {
        var i :| 1 <= i < |rows| && IsMessageIdRow(rows[i], account, folder, MessageId(mail));
        assert IsMessageIdRow(rows[1..][i - 1], account, folder, MessageId(mail));
      }
    }
  }

  /** A message without a Message-Id never counts as stored: `headervalue = NULL` is never true. */
  lemma NoMessageIdNeverExists(rows: seq<HeaderRow>, account: string, folder: string, mail: Mail)
    requires MessageId(mail).None?
    ensures !HasMessage(rows, account, folder, mail)
  {
    HasMessageIffRow(rows, account, folder, mail);
  }

  // ---------------------------------------------------------------------------
  // The rows `store` writes
  // ---------------------------------------------------------------------------

  /** `_store_headers`: one row per header of the message, in message order, each
    * holding `mail[header]`, the value of the first header with that name. */
  function HeaderRows(account: string, folder: string, mail: Mail): seq<HeaderRow> {
    seq(|mail.headers|, i requires 0 <= i < |mail.headers| =>
      HeaderRow(account, folder, mail.headers[i].0, Get(mail, mail.headers[i].0)))
  }

  /** Every header row keeps the header's name and the value of the FIRST header of
    * that name, so repeated headers (Received, say) all store the first value; no value is NULL. */
  lemma HeaderRowsHoldFirstValues(account: string, folder: string, mail: Mail)
    ensures |HeaderRows(account, folder, mail)| == |mail.headers|
    ensures forall i: nat, k: nat :: i < |mail.headers| && FirstWithName(mail.headers, k, mail.headers[i].0) ==>
      HeaderRows(account, folder, mail)[i] == HeaderRow(account, folder, mail.headers[i].0, Some(mail.headers[k].1))
    ensures forall i :: 0 <= i < |mail.headers| ==> HeaderRows(account, folder, mail)[i].value.Some?
  {
    var rows := HeaderRows(account, folder, mail);
    forall i | 0 <= i < |mail.headers| ensures rows[i].value.Some? {
      PresentHeaderHasValue(mail.headers, i);
    }
    forall i: nat, k: nat | i < |mail.headers| && FirstWithName(mail.headers, k, mail.headers[i].0)
      ensures rows[i] == HeaderRow(account, folder, mail.headers[i].0, Some(mail.headers[k].1))
    {
      LookupIsFirstMatch(mail.headers, mail.headers[i].0);
    }
  }

  // ---------------------------------------------------------------------------
  // Body selection (`_store_body`)
  // ---------------------------------------------------------------------------

  /** `str(part.get('Content-Disposition'))`: a missing header prints as "None". */
  function DispositionText(disposition: Option<string>): string {
    match disposition
    case None => "None"
    case Some(d) => d
  }

  /** The part the multipart rule looks for: text/plain, and "attachment" not in its disposition. */
  predicate IsBodyPart(p: Part) {
    p.contentType == "text/plain" && !Contains(DispositionText(p.disposition), "attachment")
  }

  /** Part `i` is the first body part in walk order. */
  predicate FirstBodyPart(parts: seq<Part>, i: nat) {
    i < |parts| && IsBodyPart(parts[i]) && forall j :: 0 <= j < i ==> !IsBodyPart(parts[j])
  }

  /** The payload of the first body part, or "" when there is none. */
  function FirstBodyPayload(parts: seq<Part>): string {
    if parts == [] then ""
    else if IsBodyPart(parts[0]) then parts[0].payload
    else FirstBodyPayload(parts[1..])
  }

  /** The body `_store_body` inserts. */
  function SelectBody(mail: Mail): string {
    if mail.isMultipart then FirstBodyPayload(mail.parts) else mail.payload
  }

  /** The multipart rule is a first-match search. */
  lemma {:induction false} FirstBodyPayloadIsFirstMatch(parts: seq<Part>)
    ensures (forall i :: 0 <= i < |parts| ==> !IsBodyPart(parts[i])) ==> FirstBodyPayload(parts) == ""
    ensures forall i: nat :: FirstBodyPart(parts, i) ==> FirstBodyPayload(parts) == parts[i].payload
  {
    if parts != [] {
      var tail := parts[1..];
      FirstBodyPayloadIsFirstMatch(tail);
      assert forall i :: 1 <= i < |parts| ==> parts[i] == tail[i - 1];
      if !IsBodyPart(parts[0]) {
        forall i: nat | FirstBodyPart(parts, i) ensures FirstBodyPayload(parts) == parts[i].payload {
          assert forall j :: 0 <= j < i - 1 ==> tail[j] == parts[j + 1];
          assert FirstBodyPart(tail, i - 1);
        }
      }
    }
  }

  /** The body of a message: the first body part's payload for a multipart message
    * ("" when it has none), its own decoded payload otherwise. */
  lemma SelectBodySpec(mail: Mail)
    ensures !mail.isMultipart ==> SelectBody(mail) == mail.payload
    ensures mail.isMultipart && (forall i :: 0 <= i < |mail.parts| ==> !IsBodyPart(mail.parts[i])) ==>
      SelectBody(mail) == ""
    ensures forall i: nat :: mail.isMultipart && FirstBodyPart(mail.parts, i) ==>
      SelectBody(mail) == mail.parts[i].payload
  {
    FirstBodyPayloadIsFirstMatch(mail.parts);
  }

  /** A text/plain part without Content-Disposition qualifies ("attachment" is not in "None");
    * one whose disposition mentions "attachment" anywhere does not. */
  lemma DispositionRule(p: Part)
    requires p.contentType == "text/plain"
    ensures p.disposition.None? ==> IsBodyPart(p)
    ensures p.disposition.Some? && Contains(p.disposition.value, "attachment") ==> !IsBodyPart(p)
  {
    if p.disposition.None? {
      assert |DispositionText(p.disposition)| < |"attachment"|;
    }
  }

  // ---------------------------------------------------------------------------
  // `store`: the specification of one call
  // ---------------------------------------------------------------------------

  /** The location after `store(account, folder, mail)`, where `folder` is the name
    * (`folder[2]`): unchanged when the message is already there for the account and
    * folder, otherwise one account row, the header rows and one message row appended. */
  function Stored(loc: Location, account: string, folder: string, mail: Mail): Location {
    if HasMessage(loc.headers, account, folder, mail) then loc
    else loc.(
      accounts := loc.accounts + [AccountRow(account, folder)],
      headers := loc.headers + HeaderRows(account, folder, mail),
      messages := loc.messages + [MessageRow(account, MessageId(mail), SelectBody(mail))])
  }

  /** After storing a message that has a Message-Id, `exists` finds it. */
  lemma StoreThenExists(loc: Location, account: string, folder: string, mail: Mail)
    requires MessageId(mail).Some?
    ensures HasMessage(Stored(loc, account, folder, mail).headers, account, folder, mail)
  {
    if !HasMessage(loc.headers, account, folder, mail) {
      var hs := mail.headers;
      LookupIsFirstMatch(hs, "Message-Id");
      var i :| 0 <= i < |hs| && SameName(hs[i].0, "Message-Id");
      LookupIgnoresCase(hs, hs[i].0, "Message-Id");
      var rows := loc.headers + HeaderRows(account, folder, mail);
      assert rows[|loc.headers| + i] == HeaderRows(account, folder, mail)[i];
      assert IsMessageIdRow(rows[|loc.headers| + i], account, folder, MessageId(mail));
      HasMessageIffRow(rows, account, folder, mail);
    }
  }

  /** Storing the same message twice is the same as storing it once. */
  lemma StoreIdempotent(loc: Location, account: string, folder: string, mail: Mail)
    requires MessageId(mail).Some?
    ensures Stored(Stored(loc, account, folder, mail), account, folder, mail) == Stored(loc, account, folder, mail)
  {
    StoreThenExists(loc, account, folder, mail);
  }

  /** A message without a Message-Id is never recognised, so every store appends it again. */
  lemma StoreWithoutMessageIdAppends(loc: Location, account: string, folder: string, mail: Mail)
    requires MessageId(mail).None?
    ensures var after := Stored(loc, account, folder, mail);
      && after.accounts == loc.accounts + [AccountRow(account, folder)]
      && after.messages == loc.messages + [MessageRow(account, None, SelectBody(mail))]
      && after.headers == loc.headers + HeaderRows(account, folder, mail)
      && |after.headers| == |loc.headers| + |mail.headers|
  {
    NoMessageIdNeverExists(loc.headers, account, folder, mail);
  }

  /** The rows `store` writes for one account and folder match no `exists` query
    * for another account or folder. */
  lemma {:induction false} HeaderRowsScoped(account: string, folder: string, mail: Mail, account': string, folder': string, msgid: Option<string>)
    requires account != account' || folder != folder'
    ensures CountMatching(HeaderRows(account, folder, mail), account', folder', msgid) == 0
  {
    var rows := HeaderRows(account, folder, mail);
    CountNone(rows, account', folder', msgid);
  }

  lemma {:induction false} CountNone(rows: seq<HeaderRow>, account: string, folder: string, msgid: Option<string>)
    requires forall i :: 0 <= i < |rows| ==> !IsMessageIdRow(rows[i], account, folder, msgid)
    ensures CountMatching(rows, account, folder, msgid) == 0
  {
    if rows != [] {
      assert forall i :: 0 <= i < |rows| - 1 ==> rows[1..][i] == rows[i + 1];
      CountNone(rows[1..], account, folder, msgid);
    }
  }

  /** Deduplication is scoped to (account, folder): storing in one folder changes
    * what `exists` says for no other account or folder. */
  lemma StoreIsScoped(loc: Location, account: string, folder: string, mail: Mail, account': string, folder': string, other: Mail)
    requires account != account' || folder != folder'
    ensures HasMessage(Stored(loc, account, folder, mail).headers, account', folder', other) ==
      HasMessage(loc.headers, account', folder', other)
  {
    if !HasMessage(loc.headers, account, folder, mail) {
      CountMatchingAppend(loc.headers, HeaderRows(account, folder, mail), account', folder', MessageId(other));
      HeaderRowsScoped(account, folder, mail, account', folder', MessageId(other));
    }
  }

  /** `messages` is keyed by account, not folder: the same message stored in two
    * folders of one account gives two equal message rows. */
  lemma SameMessageInTwoFolders(loc: Location, account: string, folder1: string, folder2: string, mail: Mail)
    requires folder1 != folder2
    requires !HasMessage(loc.headers, account, folder1, mail) && !HasMessage(loc.headers, account, folder2, mail)
    ensures var after := Stored(Stored(loc, account, folder1, mail), account, folder2, mail);
      && |after.messages| == |loc.messages| + 2
      && after.messages[|loc.messages|] == after.messages[|loc.messages| + 1]
         == MessageRow(account, MessageId(mail), SelectBody(mail))
  {
    StoreIsScoped(loc, account, folder1, mail, account, folder2, mail);
  }

  // ---------------------------------------------------------------------------
  // The `Database` class
  // ---------------------------------------------------------------------------

  class Database {
    var schema: seq<string>
    var accounts: seq<AccountRow>
    var headers: seq<HeaderRow>
    var messages: seq<MessageRow>
    /** What the last commit made permanent in the location. */
    var durable: Location
    /** The connection is open (`close` has not run yet). */
    var isOpen: bool

    /** The tables as the connection sees them. */
    function Current(): Location
      reads this
    {
      Location(schema, accounts, headers, messages)
    }

    /** `__init__`: connect to `location` and create the schema only when it holds no object. */
    constructor (location: Location)
      requires NoRowsWithoutSchema(location)
      ensures isOpen
      ensures location.schema != [] ==> Current() == location && durable == location
      ensures location.schema == [] ==>
        Current() == Location(Tables, [], [], []) && durable == Current()
    {
      schema, accounts, headers, messages := location.schema, location.accounts, location.headers, location.messages;
      durable := location;
      isOpen := true;
      new;
      if !CheckSchema() {
        CreateSchema();
      }
    }

    /** `_checkschema`: whether `sqlite_master` counts at least one object. */
    function CheckSchema(): bool
      reads this
    {
      |schema| > 0
    }

    /** `_createschema`: run the CREATE statements in order, then commit. */
    method CreateSchema()
      requires isOpen && schema == []
      modifies this
      ensures schema == Tables
      ensures accounts == old(accounts) && headers == old(headers) && messages == old(messages)
      ensures isOpen && durable == Current()
    {
      for i := 0 to |Tables|
        invariant schema == Tables[..i]
        invariant accounts == old(accounts) && headers == old(headers) && messages == old(messages)
        invariant isOpen
      {
        schema := schema + [Tables[i]];
      }
      durable := Current();
    }

    /** `close`: commit and close an open connection; on a closed one the commit
      * raises and the bare `except` swallows it, so nothing happens. */
    method Close()
      modifies this
      ensures !isOpen
      ensures durable == if old(isOpen) then old(Current()) else old(durable)
      ensures Current() == old(Current())
    {
      if isOpen {
        durable := Current();
        isOpen := false;
      }
    }

    /** `exists`: some header row of this account and folder is named Message-Id
      * (in any case) and holds the message's Message-Id. */
    function Exists(account: string, folder: string, mail: Mail): (found: bool)
      reads this
      requires isOpen
      ensures found <==> exists i :: 0 <= i < |headers| && IsMessageIdRow(headers[i], account, folder, MessageId(mail))
    {
      HasMessageIffRow(headers, account, folder, mail);
      HasMessage(headers, account, folder, mail)
    }

    /** `_store_account` */
    method StoreAccount(account: string, folder: string)
      modifies this`accounts
      ensures accounts == old(accounts) + [AccountRow(account, folder)]
    {
      accounts := accounts + [AccountRow(account, folder)];
    }

    /** `_store_headers`: one insert per header, in message order. */
    method StoreHeaders(account: string, folder: string, mail: Mail)
      modifies this`headers
      ensures headers == old(headers) + HeaderRows(account, folder, mail)
    {
      var i := 0;
      while i < |mail.headers|
        invariant 0 <= i <= |mail.headers|
        invariant headers == old(headers) + HeaderRows(account, folder, mail)[..i]
      {
        var name := mail.headers[i].0;
        headers := headers + [HeaderRow(account, folder, name, Get(mail, name))];
        assert HeaderRows(account, folder, mail)[..i + 1] == HeaderRows(account, folder, mail)[..i] + [HeaderRow(account, folder, name, Get(mail, name))];
        i := i + 1;
      }
      assert HeaderRows(account, folder, mail)[..i] == HeaderRows(account, folder, mail);
    }

    /** `_store_body`: insert the message row keyed by account and Message-Id. */
    method StoreBody(account: string, mail: Mail)
      modifies this`messages
      ensures messages == old(messages) + [MessageRow(account, MessageId(mail), SelectBody(mail))]
    {
      var body := WalkForBody(mail);
      messages := messages + [MessageRow(account, Get(mail, "Message-Id"), body)];
    }

    /** `store`: skip a message `exists` already finds for `(account, folder[2])`,
      * otherwise insert its account, header and body rows. Nothing is committed. */
    method Store(account: string, folder: Emails.Folder, mail: Mail)
      requires isOpen
      modifies this
      ensures Current() == Stored(old(Current()), account, folder.name, mail)
      ensures isOpen && durable == old(durable)
    {
      if !Exists(account, folder.name, mail) {
        StoreAccount(account, folder.name);
        StoreHeaders(account, folder.name, mail);
        StoreBody(account, mail);
      }
    }
  }

  /** The body selection loop of `_store_body`: walk the parts and stop at the first
    * text/plain part whose disposition does not mention "attachment". */
  method WalkForBody(mail: Mail) returns (body: string)
    ensures body == SelectBody(mail)
  {
    if !mail.isMultipart {
      return mail.payload;
    }
    body := "";
    var i := 0;
    while i < |mail.parts|
      invariant 0 <= i <= |mail.parts|
      invariant FirstBodyPayload(mail.parts) == FirstBodyPayload(mail.parts[i..])
      invariant body == ""
    {
      var part := mail.parts[i];
      var disposition := DispositionText(part.disposition);
      if part.contentType == "text/plain" && !Contains(disposition, "attachment") {
        body := part.payload;
        break;
      }
      assert mail.parts[i..][1..] == mail.parts[i + 1..];
      i := i + 1;
    }
  }

  /** Storing the same message twice through `Database` leaves the tables as one store does. */
  method StoreTwice(db: Database, account: string, folder: Emails.Folder, mail: Mail)
    requires db.isOpen && MessageId(mail).Some?
    modifies db
    ensures db.Current() == Stored(old(db.Current()), account, folder.name, mail)
  {
    db.Store(account, folder, mail);
    db.Store(account, folder, mail);
    StoreIdempotent(old(db.Current()), account, folder.name, mail);
  }
}
