/**
 * The IMAP side of the archiver (mailarchive/emails.py): parsing the lines of a
 * LIST response into (flags, delimiter, name) triples, the folder iterator that
 * hands them out one by one, the validating scheme setter, and the way the
 * responses to SELECT, UID SEARCH and UID FETCH become results. The server and
 * `imaplib` are not modelled: responses are given values.
 */
module Emails {
  import opened Wrappers
  import opened Text
  import opened Message

  /** A mailbox as one LIST line describes it (section 7.2.2 of RFC 3501). */
  datatype Folder = Folder(flags: string, delimiter: string, name: string)

  // ---------------------------------------------------------------------------
  // The pattern  \((?P<flags>.*?)\) "(?P<delimiter>.*)" (?P<name>.*)
  // applied with `re.match`: anchored at the start, not at the end, and `.`
  // matches any character except a newline.
  // ---------------------------------------------------------------------------

  predicate NoNewline(s: string) {
    forall i :: 0 <= i < |s| ==> s[i] != '\n'
  }

  /** The text `) "` that ends the flags group starts at index k. */
  predicate FlagsEndAt(s: string, k: int) {
    0 <= k && k + 3 <= |s| && s[k] == ')' && s[k + 1] == ' ' && s[k + 2] == '"'
  }

  /** The text `" ` that ends the delimiter group starts at index l. */
  predicate DelimiterEndAt(s: string, l: int) {
    0 <= l && l + 2 <= |s| && s[l] == '"' && s[l + 1] == ' '
  }

  /** On a line without newline, the pattern matches with the flags group ending
    * at k and the delimiter group ending at l; the name group is the rest. */
  predicate MatchesWith(s: string, k: int, l: int) {
    |s| > 0 && s[0] == '(' && 1 <= k && FlagsEndAt(s, k) && k + 3 <= l && DelimiterEndAt(s, l)
  }

  /** The index of the first newline of `line`, or its length. */
  function LineEnd(line: string): (e: nat)
    ensures e <= |line| && NoNewline(line[..e])
    ensures e == |line| || line[e] == '\n'
  {
    if line == [] then 0
    else if line[0] == '\n' then 0
    else
      var e := 1 + LineEnd(line[1..]);
      assert forall i :: 1 <= i < e ==> line[i] == line[1..][i - 1];
      e
  }

  /** The last `" ` that starts below `hi`. */
  function LastDelimiterEnd(s: string, hi: nat): (r: Option<nat>)
    requires hi <= |s|
    ensures r.Some? ==> r.value < hi && DelimiterEndAt(s, r.value)
    ensures r.Some? ==> forall q :: r.value < q < hi ==> !DelimiterEndAt(s, q)
    ensures r.None? ==> forall q :: 0 <= q < hi ==> !DelimiterEndAt(s, q)
    decreases hi
  {
    if hi == 0 then None
    else if DelimiterEndAt(s, hi - 1) then Some(hi - 1)
    else LastDelimiterEnd(s, hi - 1)
  }

  /** The first `) "` at an index from `k` on that ends by `limit`. */
  function FirstFlagsEnd(s: string, k: nat, limit: nat): (r: Option<nat>)
    ensures r.Some? ==> k <= r.value && r.value + 3 <= limit && FlagsEndAt(s, r.value)
    ensures r.Some? ==> forall q :: k <= q < r.value ==> !FlagsEndAt(s, q)
    ensures r.None? ==> forall q :: k <= q && q + 3 <= limit ==> !FlagsEndAt(s, q)
    decreases limit - k
  {
    if k + 3 > limit then None
    else if FlagsEndAt(s, k) then Some(k)
    else FirstFlagsEnd(s, k + 1, limit)
  }

  /**
   * Where the groups end on a newline-free line: None exactly when the pattern
   * does not match; otherwise the flags end at the earliest possible point (lazy
   * `.*?`) and, for those flags, the delimiter at the latest (greedy `.*`).
   */
  function MatchIndices(s: string): (r: Option<(nat, nat)>)
    ensures r.None? <==> forall k, l :: !MatchesWith(s, k, l)
    ensures r.Some? ==> MatchesWith(s, r.value.0, r.value.1)
    ensures r.Some? ==> forall k, l :: k < r.value.0 ==> !MatchesWith(s, k, l)
    ensures r.Some? ==> forall l :: r.value.1 < l ==> !MatchesWith(s, r.value.0, l)
  {
    if |s| == 0 || s[0] != '(' then None
    else
      match LastDelimiterEnd(s, |s|)
      case None => None
      case Some(l) =>
        match FirstFlagsEnd(s, 1, l)
        case None => None
        case Some(k) =>
          assert MatchesWith(s, k, l);
          Some((k, l))
  }

  /** The three groups of `pattern.match(line)`, or None when it does not match. */
  function MatchLine(line: string): Option<Folder> {
    var s := line[..LineEnd(line)];
    match MatchIndices(s)
    case None => None
    case Some((k, l)) => Some(Folder(s[1..k], s[k + 3..l], s[l + 2..]))
  }

  /** `mailbox_name.strip('"')`: only the name changes. It keeps one slice of the
    * name, cuts off exactly the runs of `"` around it, and neither starts nor ends with `"`. */
  function StripName(g: Folder): (f: Folder)
    ensures f.flags == g.flags && f.delimiter == g.delimiter
    ensures TrimmedSlice(g.name, '"', |g.name| - |StripLeading(g.name, '"')|, f.name)
  {
    StripIsTrimmedSlice(g.name, '"');
    g.(name := Strip(g.name, '"'))
  }

  /** A LIST line as `__next__` turns it into a triple: the groups, with every
    * leading and trailing `"` removed from the name. */
  function ParseListLine(line: string): Option<Folder> {
    var m := MatchLine(line);
    if m.None? then None else Some(StripName(m.value))
  }

  // ---------------------------------------------------------------------------
  // Lines a server sends, and the round trip through the parser
  // ---------------------------------------------------------------------------

  /** The name as it stands on the line: in double quotes or bare. */
  function NameField(name: string, quoted: bool): string {
    if quoted then "\"" + name + "\"" else name
  }

  /** `(flags) "delimiter" name`, the shape of a LIST response line. */
  function FormatListLine(f: Folder, quoted: bool): string {
    "(" + f.flags + ") \"" + f.delimiter + "\" " + NameField(f.name, quoted)
  }

  /** A folder the pattern reads back: no newline, no `) "` inside the flags,
    * no `" ` inside the name field, and no outer quote characters in the name. */
  ghost predicate Listable(f: Folder, quoted: bool) {
    && NoNewline(f.flags) && NoNewline(f.delimiter) && NoNewline(NameField(f.name, quoted))
    && (forall k :: !FlagsEndAt(f.flags, k))
    && (forall l :: !DelimiterEndAt(NameField(f.name, quoted), l))
    && (f.name == [] || (f.name[0] != '"' && f.name[|f.name| - 1] != '"'))
  }

  /** Where the parts of `"(" + f.flags + ") \"" + f.delimiter + "\" " + n` stand in `s`. */
  predicate Layout(f: Folder, n: string, s: string) {
    var a, b := |f.flags| + 1, |f.flags| + |f.delimiter| + 4;
    && |s| == b + 2 + |n| && s[0] == '('
    && s[a] == ')' && s[a + 1] == ' ' && s[a + 2] == '"' && s[b] == '"' && s[b + 1] == ' '
    && s[1..a] == f.flags && s[a + 3..b] == f.delimiter && s[b + 2..] == n
  }

  lemma FormatListLineLayout(f: Folder, n: string, s: string)
    requires s == "(" + f.flags + ") \"" + f.delimiter + "\" " + n
    ensures Layout(f, n, s)
  {
    var a, b := |f.flags| + 1, |f.flags| + |f.delimiter| + 4;
    var p0 := "(" + f.flags;
    var p1 := p0 + ") \"";
    var p2 := p1 + f.delimiter;
    var p3 := p2 + "\" ";
    assert s == p3 + n;
    assert s[..|p3|] == p3 && s[|p3|..] == n;
    assert p3[..|p2|] == p2 && p2[..|p1|] == p1 && p1[..|p0|] == p0;
    assert p2[|p1|..] == f.delimiter;
    assert p0[1..] == f.flags;
    assert s[1..a] == p0[1..];
    assert s[a + 3..b] == p2[|p1|..];
  }

  lemma NoNewlineInFormatted(f: Folder, n: string, s: string)
    requires Layout(f, n, s)
    requires NoNewline(f.flags) && NoNewline(f.delimiter) && NoNewline(n)
    ensures NoNewline(s)
  {
    var a, b := |f.flags| + 1, |f.flags| + |f.delimiter| + 4;
    forall i | 0 <= i < |s| ensures s[i] != '\n' {
      if 1 <= i < a {
        assert s[i] == s[1..a][i - 1];
      } else if a + 3 <= i < b {
        assert s[i] == s[a + 3..b][i - a - 3];
      } else if b + 2 <= i {
        assert s[i] == s[b + 2..][i - b - 2];
      }
    }
  }

  /** On a formatted line no `) "` starts before the one written after the flags. */
  lemma NoEarlierFlagsEnd(f: Folder, n: string, s: string, k: int)
    requires Layout(f, n, s)
    requires forall k :: !FlagsEndAt(f.flags, k)
    requires 1 <= k < |f.flags| + 1
    ensures !FlagsEndAt(s, k)
  {
    var a := |f.flags| + 1;
    if k + 3 <= a {
      assert s[k] == s[1..a][k - 1] && s[k + 1] == s[1..a][k] && s[k + 2] == s[1..a][k + 1];
      assert !FlagsEndAt(f.flags, k - 1);
    }
  }

  /** On a formatted line no `" ` starts after the one written after the delimiter. */
  lemma NoLaterDelimiterEnd(f: Folder, n: string, s: string, l: int)
    requires Layout(f, n, s)
    requires forall l :: !DelimiterEndAt(n, l)
    requires |f.flags| + |f.delimiter| + 4 < l
    ensures !DelimiterEndAt(s, l)
  {
    var b := |f.flags| + |f.delimiter| + 4;
    if l != b + 1 && l + 2 <= |s| {
      assert s[l] == s[b + 2..][l - b - 2] && s[l + 1] == s[b + 2..][l - b - 1];
      assert !DelimiterEndAt(n, l - b - 2);
    }
  }

  /** On a formatted line the flags end at the `) "` written after them and the
    * delimiter at the `" ` written after it. */
  lemma FormattedMatchIndices(f: Folder, n: string, s: string)
    requires Layout(f, n, s)
    requires forall k :: !FlagsEndAt(f.flags, k)
    requires forall l :: !DelimiterEndAt(n, l)
    ensures MatchIndices(s) == Some((|f.flags| + 1, |f.flags| + |f.delimiter| + 4))
  {
    var a, b := |f.flags| + 1, |f.flags| + |f.delimiter| + 4;
    assert MatchesWith(s, a, b);
    var r := MatchIndices(s);
    var k, l := r.value.0, r.value.1;
    assert k >= a by {
      if 1 <= k < a {
        NoEarlierFlagsEnd(f, n, s, k);
      }
    }
    assert l <= b by {
      if b < l {
        NoLaterDelimiterEnd(f, n, s, l);
      }
    }
  }

  lemma SingleLine(s: string)
    requires NoNewline(s)
    ensures s[..LineEnd(s)] == s
  {
  }

  /** A formatted line matches the pattern with the written flags, delimiter and name field. */
  lemma FormattedLineMatches(f: Folder, n: string, s: string)
    requires Layout(f, n, s)
    requires forall k :: !FlagsEndAt(f.flags, k)
    requires forall l :: !DelimiterEndAt(n, l)
    requires NoNewline(s)
    ensures MatchLine(s) == Some(Folder(f.flags, f.delimiter, n))
  {
    SingleLine(s);
    FormattedMatchIndices(f, n, s);
  }

  /** A listable folder's line matches with the written groups. */
  lemma FormattedFolderMatches(f: Folder, quoted: bool)
    requires Listable(f, quoted)
    ensures MatchLine(FormatListLine(f, quoted)) == Some(f.(name := NameField(f.name, quoted)))
  {
    var n := NameField(f.name, quoted);
    var s := FormatListLine(f, quoted);
    FormatListLineLayout(f, n, s);
    NoNewlineInFormatted(f, n, s);
    FormattedLineMatches(f, n, s);
  }

  /** Stripping quotes from the name field gives the name back, quoted or bare. */
  lemma StripNameField(name: string, quoted: bool)
    requires name == [] || (name[0] != '"' && name[|name| - 1] != '"')
    ensures Strip(NameField(name, quoted), '"') == name
  {
    if quoted {
      StripFramed(name);
    } else {
      StripUntouched(name, '"');
    }
  }

  /** Formatting a listable folder and parsing the line gives the folder back. */
  lemma ListLineRoundTrip(f: Folder, quoted: bool)
    requires Listable(f, quoted)
    ensures MatchLine(FormatListLine(f, quoted)) == Some(f.(name := NameField(f.name, quoted)))
    ensures ParseListLine(FormatListLine(f, quoted)) == Some(f)
  {
    FormattedFolderMatches(f, quoted);
    StripNameField(f.name, quoted);
  }

  /** Stripping the quotes around a name with no outer quote of its own gives the name. */
  lemma StripFramed(name: string)
    requires name == [] || (name[0] != '"' && name[|name| - 1] != '"')
    ensures Strip("\"" + name + "\"", '"') == name
  {
    var n := "\"" + name + "\"";
    assert n[1..] == name + "\"";
    assert (name + "\"")[..|name|] == name;
    StripQuotedName(n, name);
  }

  lemma StripQuotedName(n: string, name: string)
    requires name == [] || (name[0] != '"' && name[|name| - 1] != '"')
    requires n != [] && n[0] == '"'
    requires |n[1..]| == |name| + 1 && n[1..][|name|] == '"' && n[1..][..|name|] == name
    ensures Strip(n, '"') == name
  {
    var q := n[1..];
    StripLeadingStep(n, '"');
    if name == [] {
      StripLeadingStep(q, '"');
      StripLeadingStop(q[1..], '"');
    } else {
      StripLeadingStop(q, '"');
      StripTrailingStep(q, '"');
      StripTrailingStop(name, '"');
    }
  }

  /** A line without any `" ` does not match: a LIST line whose delimiter is NIL
    * (section 7.2.2 of RFC 3501) and whose name is an atom is one. */
  lemma NoQuotedDelimiterNoMatch(line: string)
    requires forall l :: !DelimiterEndAt(line[..LineEnd(line)], l)
    ensures MatchLine(line) == None && ParseListLine(line) == None
  {
  }

  predicate NoQuote(s: string) {
    forall i :: 0 <= i < |s| ==> s[i] != '"'
  }

  /** A LIST line whose delimiter is NIL (section 7.2.2 of RFC 3501), such as
    * `(\\Noselect) NIL INBOX`, does not match while neither flags nor name hold a `"`. */
  lemma NilDelimiterNoMatch(flags: string, name: string)
    requires NoQuote(flags) && NoQuote(name)
    ensures ParseListLine("(" + flags + ") NIL " + name) == None
  {
    var p := "(" + flags + ") NIL ";
    var s := p + name;
    assert s == "(" + flags + ") NIL " + name;
    forall i | 0 <= i < |s| ensures s[i] != '"' {
      if i == 0 {
        assert s[i] == '(';
      } else if i <= |flags| {
        assert s[i] == flags[i - 1];
      } else if i < |p| {
        assert s[i] == ") NIL "[i - |flags| - 1];
      } else {
        assert s[i] == name[i - |p|];
      }
    }
    var t := s[..LineEnd(s)];
    forall l ensures !DelimiterEndAt(t, l) {
      if 0 <= l < |t| {
        assert t[l] == s[l];
      }
    }
    NoQuotedDelimiterNoMatch(s);
  }

  // ---------------------------------------------------------------------------
  // IMAPFolders: the iterator over the lines of a LIST response
  // ---------------------------------------------------------------------------

  /** What one call of `__next__` does: return a triple, raise StopIteration, or
    * raise AttributeError (`.groups()` on a failed match), which escapes the
    * `except IndexError` handler. */
  datatype Step = Item(folder: Folder) | StopIteration | NoMatch

  class ImapFolders {
    const data: seq<string>
    var index: nat

    ghost predicate Valid()
      reads this
    {
      index <= |data|
    }

    constructor (data: seq<string>)
      ensures this.data == data && index == 0 && Valid()
    {
      this.data := data;
      index := 0;
    }

    method Next() returns (step: Step)
      requires Valid()
      modifies this
      ensures Valid()
      ensures old(index) == |data| ==> step == StopIteration && index == old(index)
      ensures old(index) < |data| && ParseListLine(data[old(index)]).None? ==>
        step == NoMatch && index == old(index)
      ensures old(index) < |data| && ParseListLine(data[old(index)]).Some? ==>
        step == Item(ParseListLine(data[old(index)]).value) && index == old(index) + 1
    {
      if index >= |data| {
        return StopIteration;
      }
      var groups := MatchLine(data[index]);
      if groups.None? {
        return NoMatch;
      }
      var folder := StripName(groups.value);
      index := index + 1;
      step := Item(folder);
    }
  }

  // ---------------------------------------------------------------------------
  // IMAP: the scheme setter and the handling of server responses
  // ---------------------------------------------------------------------------

  predicate SupportedScheme(scheme: string) {
    scheme == "imap" || scheme == "imaps"
  }

  datatype TypeError = TypeError(message: string)

  class Imap {
    var scheme: Option<string>

    constructor ()
      ensures scheme == None
    {
      scheme := None;
    }

    /** The `scheme` property setter. */
    method SetScheme(scheme: string) returns (r: Result<(), TypeError>)
      modifies this
      ensures SupportedScheme(scheme) ==> r == Ok(()) && this.scheme == Some(scheme)
      ensures !SupportedScheme(scheme) ==>
        r == Err(TypeError("scheme not supported: " + scheme)) && this.scheme == old(this.scheme)
    {
      if !(scheme in ["imap", "imaps"]) {
        return Err(TypeError("scheme not supported: " + scheme));
      }
      this.scheme := Some(scheme);
      r := Ok(());
    }
  }

  /** A tagged server response: the status and the data lines (decoded). */
  datatype Reply = Reply(status: string, data: seq<string>)

  /** The exceptions `count` lets through: `counted[0]` on empty data, `int()` on non-numeric data. */
  datatype CountError = IndexError | ValueError(text: string)

  /** `count`: the status of SELECT and the number of messages it reports, or -1 when it failed. */
  function Count(reply: Reply): (r: Result<(string, int), CountError>)
    ensures r.Ok? ==> r.value.0 == reply.status
    ensures reply.status != "OK" ==> r == Ok((reply.status, -1))
    ensures reply.status == "OK" && r.Ok? ==> |reply.data| > 0 && ParseInt(reply.data[0]) == Some(r.value.1)
    ensures reply.status == "OK" ==> (r.Ok? <==> |reply.data| > 0 && ParseInt(reply.data[0]).Some?)
    ensures reply.status == "OK" && |reply.data| == 0 ==> r == Err(IndexError)
    ensures reply.status == "OK" && |reply.data| > 0 && ParseInt(reply.data[0]).None? ==>
      r == Err(ValueError(reply.data[0]))
  {
    if reply.status == "OK" then
      if |reply.data| == 0 then Err(IndexError)
      else
        match ParseInt(reply.data[0])
        case None => Err(ValueError(reply.data[0]))
        case Some(n) => Ok((reply.status, n))
    else Ok((reply.status, -1))
  }

  /** A successful SELECT that reports `n` messages is counted as `n`. */
  lemma CountReportsExists(n: nat, rest: seq<string>)
    ensures Count(Reply("OK", [Decimal(n)] + rest)) == Ok(("OK", n as int))
  {
    DecimalRoundTrip(n);
  }

  /** `result` holds, in order, the identifiers of each line of `data`. */
  predicate SplitsOf(data: seq<string>, result: seq<seq<string>>) {
    |result| == |data| && forall j :: 0 <= j < |data| ==> result[j] == Split(data[j])
  }

  lemma SplitsOfAppend(data: seq<string>, result: seq<seq<string>>, i: nat)
    requires i < |data| && SplitsOf(data[..i], result)
    ensures SplitsOf(data[..i + 1], result + [Split(data[i])])
  {
    var r := result + [Split(data[i])];
    forall j | 0 <= j < i + 1 ensures r[j] == Split(data[..i + 1][j]) {
      if j < i {
        assert data[..i + 1][j] == data[..i][j];
      }
    }
  }

  /** `list`: the status of UID SEARCH and, per data line, the identifiers on it. */
  method List(reply: Reply) returns (status: string, result: seq<seq<string>>)
    ensures status == reply.status
    ensures |result| == |reply.data|
    ensures forall i :: 0 <= i < |result| ==> result[i] == Split(reply.data[i])
  {
    result := [];
    for i := 0 to |reply.data|
      invariant SplitsOf(reply.data[..i], result)
    {
      SplitsOfAppend(reply.data, result, i);
      result := result + [Split(reply.data[i])];
    }
    assert reply.data[..|reply.data|] == reply.data;
    status := reply.status;
  }

  /** Search lines that list identifiers separated by spaces make `list` return
    * exactly those identifiers, line by line. */
  lemma ListRecoversIds(lines: seq<seq<string>>)
    requires forall i :: 0 <= i < |lines| ==> AllWords(lines[i])
    ensures SplitsOf(seq(|lines|, i requires 0 <= i < |lines| => JoinWords(lines[i])), lines)
  {
    var data := seq(|lines|, i requires 0 <= i < |lines| => JoinWords(lines[i]));
    forall j | 0 <= j < |data| ensures lines[j] == Split(data[j]) {
      SplitJoinWords(lines[j]);
    }
  }

  /** `data[0]` of a UID FETCH response: falsy (None when the identifier is gone)
    * or the pair whose second item is the raw message. */
  datatype FetchDatum = Missing | Literal(envelope: string, raw: string)

  /** The outcome of SELECT plus UID FETCH: one of them raised `IMAP4.error`, or the reply. */
  datatype FetchReply = Raised | Fetched(status: string, data: seq<FetchDatum>)

  /**
   * `fetch`: ("KO", None) when the server calls raised or building the message
   * raised TypeError (`construct` returns None then); the message only when the
   * status is OK and `data[0]` carries one; otherwise the status and None.
   */
  function Fetch(reply: FetchReply, construct: string -> Option<Mail>): (r: (string, Option<Mail>))
    ensures reply.Raised? ==> r == ("KO", None)
    ensures r.1.Some? <==> (reply.Fetched? && reply.status == "OK" && |reply.data| > 0
      && reply.data[0].Literal? && construct(reply.data[0].raw).Some?)
    ensures r.1.Some? ==> r == ("OK", construct(reply.data[0].raw))
    ensures (reply.Fetched? && reply.status == "OK" && |reply.data| > 0 && reply.data[0].Literal?
      && construct(reply.data[0].raw).None?) ==> r == ("KO", None)
    ensures reply.Fetched? && !(reply.status == "OK" && |reply.data| > 0 && reply.data[0].Literal?) ==>
      r == (reply.status, None)
  {
    match reply
    case Raised => ("KO", None)
    case Fetched(status, data) =>
      if status == "OK" && |data| > 0 && data[0].Literal? then
        match construct(data[0].raw)
        case None => ("KO", None)
        case Some(mail) => (status, Some(mail))
      else (status, None)
  }
}
