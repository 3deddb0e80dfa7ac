/**
 * The parts of Go's `net/http` that the modelled handler relies on: header
 * keys in canonical form (`textproto.CanonicalMIMEHeaderKey`), `Header.Get`,
 * `Header.Set`, and a response writer whose header map is changed in place.
 */
module GoHttp {

  /** `http.Header`: canonical key to the list of values. */
  type Header = map<string, seq<string>>

  /** A `tchar` of section 3.2.6 of RFC 7230: the bytes a header field name may contain. */
  predicate IsTokenChar(c: char) {
    ('a' <= c <= 'z') || ('A' <= c <= 'Z') || ('0' <= c <= '9') ||
    c == '!' || c == '#' || c == '$' || c == '%' || c == '&' || c == '\'' || c == '*' ||
    c == '+' || c == '-' || c == '.' || c == '^' || c == '_' || c == '`' || c == '|' || c == '~'
  }

  predicate AllTokenChars(s: string) {
    forall k :: 0 <= k < |s| ==> IsTokenChar(s[k])
  }

  /** The case a letter gets: upper case at the start and after `-`, lower case elsewhere. */
  function Recase(c: char, upper: bool): (d: char)
    ensures (d == '-') <==> (c == '-')
    ensures IsTokenChar(d) <==> IsTokenChar(c)
  {
    if upper && 'a' <= c <= 'z' then (c as int - 32) as char
    else if !upper && 'A' <= c <= 'Z' then (c as int + 32) as char
    else c
  }

  /** Recasing twice is recasing once. */
  lemma RecaseIdempotent(c: char, upper: bool)
    ensures Recase(Recase(c, upper), upper) == Recase(c, upper)
  {
  }

  /** Each character recased by its position: `upper` holds at the start and after each `-`. */
  function Canon(s: string, upper: bool): (r: string)
    ensures |r| == |s|
    decreases |s|
  {
    if |s| == 0 then "" else [Recase(s[0], upper)] + Canon(s[1..], s[0] == '-')
  }

  /**
   * `textproto.CanonicalMIMEHeaderKey`: a key made of token characters is
   * recased word by word (`content-type` becomes `Content-Type`); any other
   * key is returned unchanged.
   */
  function CanonicalKey(s: string): string {
    if AllTokenChars(s) then Canon(s, true) else s
  }

  lemma {:induction false} CanonKeepsTokenChars(s: string, upper: bool)
    ensures AllTokenChars(Canon(s, upper)) <==> AllTokenChars(s)
    decreases |s|
  {
    if |s| > 0 {
      CanonKeepsTokenChars(s[1..], s[0] == '-');
      var r := Canon(s, upper);
      assert r[0] == Recase(s[0], upper);
      assert r[1..] == Canon(s[1..], s[0] == '-');
      assert forall k :: 1 <= k < |s| ==> r[k] == r[1..][k - 1] && s[k] == s[1..][k - 1];
    }
  }

  lemma {:induction false} CanonIdempotent(s: string, upper: bool)
    ensures Canon(Canon(s, upper), upper) == Canon(s, upper)
    decreases |s|
  {
    if |s| > 0 {
      var r := Canon(s, upper);
      assert r[0] == Recase(s[0], upper);
      assert r[1..] == Canon(s[1..], s[0] == '-');
      RecaseIdempotent(s[0], upper);
      CanonIdempotent(s[1..], s[0] == '-');
    }
  }

  /** A canonical key stays as it is. */
  lemma CanonicalKeyIdempotent(s: string)
    ensures CanonicalKey(CanonicalKey(s)) == CanonicalKey(s)
  {
    if AllTokenChars(s) {
      CanonKeepsTokenChars(s, true);
      CanonIdempotent(s, true);
    }
  }

  /** `Header.Get(key)`: the first value under the canonical key, or "" when there is none. */
  function HeaderGet(h: Header, key: string): string {
    var k := CanonicalKey(key);
    if k in h && |h[k]| > 0 then h[k][0] else ""
  }

  /** `Header.Set(key, value)` on a header map: the canonical key now holds exactly `value`. */
  function HeaderSet(h: Header, key: string, value: string): Header {
    h[CanonicalKey(key) := [value]]
  }

  /** A value set under a key is what `Get` returns for any spelling of that key with the same canonical form. */
  lemma GetAfterSet(h: Header, key: string, key': string, value: string)
    requires CanonicalKey(key') == CanonicalKey(key)
    ensures HeaderGet(HeaderSet(h, key, value), key') == value
  {
  }

  /** Setting a key leaves the values of every other canonical key as they were. */
  lemma SetLeavesOthers(h: Header, key: string, key': string, value: string)
    requires CanonicalKey(key') != CanonicalKey(key)
    ensures HeaderGet(HeaderSet(h, key, value), key') == HeaderGet(h, key')
  {
  }

  /** The response side of a handler: `w.Header()` is changed in place. */
  class ResponseWriter {
    var header: Header

    constructor ()
      ensures header == map[]
    {
      header := map[];
    }

    /** `w.Header().Set(key, value)`. */
    method SetHeader(key: string, value: string)
      modifies this
      ensures header == HeaderSet(old(header), key, value)
    {
      header := header[CanonicalKey(key) := [value]];
    }
  }
}
