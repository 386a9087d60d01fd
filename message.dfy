/**
 * An email message as the archiver sees it after Python's `email` package has
 * parsed it: the header fields in the order they appear, whether the message is
 * multipart, its parts in `walk()` order and its own decoded payload.
 */
module Message {
  import opened Wrappers
  import opened Text

  /** One part yielded by `walk()`: `get_content_type()`, the raw
    * `Content-Disposition` header (absent as None), and `get_payload(decode=True)`. */
  datatype Part = Part(contentType: string, disposition: Option<string>, payload: string)

  /** `headers` in message order, names as received; `payload` is the message's own decoded payload. */
  datatype Mail = Mail(headers: seq<(string, string)>, isMultipart: bool, parts: seq<Part>, payload: string)

  /** The value of the first header whose name equals `name` ignoring ASCII case. */
  function Lookup(headers: seq<(string, string)>, name: string): Option<string> {
    if headers == [] then None
    else if SameName(headers[0].0, name) then Some(headers[0].1)
    else Lookup(headers[1..], name)
  }

  /** `mail[name]`. */
  function Get(mail: Mail, name: string): Option<string> {
    Lookup(mail.headers, name)
  }

  /** `mail["Message-Id"]`, None when the message has no such header. */
  function MessageId(mail: Mail): Option<string> {
    Get(mail, "Message-Id")
  }

  /** Header `i` is the first one whose name equals `name` ignoring case. */
  predicate FirstWithName(headers: seq<(string, string)>, i: nat, name: string) {
    i < |headers| && SameName(headers[i].0, name)
    && forall j :: 0 <= j < i ==> !SameName(headers[j].0, name)
  }

  /** A lookup is a first-match search: None exactly when no header has the name,
    * otherwise the value of the first header that has it. */
  lemma {:induction false} LookupIsFirstMatch(headers: seq<(string, string)>, name: string)
    ensures Lookup(headers, name).None? <==> forall i :: 0 <= i < |headers| ==> !SameName(headers[i].0, name)
    ensures forall i: nat :: FirstWithName(headers, i, name) ==> Lookup(headers, name) == Some(headers[i].1)
  {
    if headers != [] {
      var tail := headers[1..];
      LookupIsFirstMatch(tail, name);
      assert forall i :: 1 <= i < |headers| ==> headers[i] == tail[i - 1];
      if !SameName(headers[0].0, name) {
        forall i: nat | FirstWithName(headers, i, name)
          ensures Lookup(headers, name) == Some(headers[i].1)
        {
          assert i > 0 && headers[i] == tail[i - 1];
          assert forall j :: 0 <= j < i - 1 ==> tail[j] == headers[j + 1];
          assert FirstWithName(tail, i - 1, name);
        }
      }
    }
  }

  /** Header lookup does not depend on the case of the requested name. */
  lemma {:induction false} LookupIgnoresCase(headers: seq<(string, string)>, a: string, b: string)
    requires SameName(a, b)
    ensures Lookup(headers, a) == Lookup(headers, b)
  {
    if headers != [] {
      LookupIgnoresCase(headers[1..], a, b);
    }
  }

  /** Looking up the name of a header the message has always finds a value. */
  lemma PresentHeaderHasValue(headers: seq<(string, string)>, i: nat)
    requires i < |headers|
    ensures Lookup(headers, headers[i].0).Some?
  {
    LookupIsFirstMatch(headers, headers[i].0);
  }
}
