/** What the site's hooks see of an HTTP exchange: the response status and
    body, and the `application/x-www-form-urlencoded` serialisation that
    `URLSearchParams.toString()` applies to query values. */
module Http {

  /** A response as `fetch` hands it over: status code, status text and a
      body of whatever shape the endpoint returns. */
  datatype Response<B> = Response(status: nat, statusText: string, body: B)

  /** `response.ok`: a status in the 2xx range. */
  predicate IsOk(status: nat) {
    200 <= status <= 299
  }

  datatype Method = Get | Post | Patch | Delete

  /** The characters the form-urlencoded serialiser copies unchanged. */
  predicate Unreserved(c: char) {
    || ('a' <= c <= 'z') || ('A' <= c <= 'Z') || ('0' <= c <= '9')
    || c == '*' || c == '-' || c == '.' || c == '_'
  }

  /** The UTF-8 bytes of one Unicode scalar value. */
  function Utf8(c: char): (r: seq<nat>)
    ensures 1 <= |r| <= 4
    ensures forall i :: 0 <= i < |r| ==> r[i] < 256
  {
    var n := c as int;
    if n < 0x80 then [n]
    else if n < 0x800 then [0xC0 + n / 64, 0x80 + n % 64]
    else if n < 0x10000 then [0xE0 + n / 4096, 0x80 + (n / 64) % 64, 0x80 + n % 64]
    else [0xF0 + n / 262144, 0x80 + (n / 4096) % 64, 0x80 + (n / 64) % 64, 0x80 + n % 64]
  }

  /** An upper-case hexadecimal digit. */
  function HexDigit(d: nat): (c: char)
    requires d < 16
    ensures ('0' <= c <= '9') || ('A' <= c <= 'F')
  {
    if d < 10 then ('0' as int + d) as char else ('A' as int + d - 10) as char
  }

  /** `%XX` escapes for a run of bytes. */
  function PercentBytes(bs: seq<nat>): (r: string)
    requires forall i :: 0 <= i < |bs| ==> bs[i] < 256
    ensures |r| == 3 * |bs|
    ensures forall i :: 0 <= i < |r| ==> r[i] == '%' || Unreserved(r[i])
  {
    if |bs| == 0 then ""
    else ['%', HexDigit(bs[0] / 16), HexDigit(bs[0] % 16)] + PercentBytes(bs[1..])
  }

  /** One character of a serialised value: unreserved characters stay, a
      space becomes `+`, everything else is percent-encoded as UTF-8. */
  function EncodeChar(c: char): (r: string)
    ensures |r| > 0
    ensures forall i :: 0 <= i < |r| ==> r[i] == '%' || r[i] == '+' || Unreserved(r[i])
  {
    if Unreserved(c) then [c]
    else if c == ' ' then "+"
    else PercentBytes(Utf8(c))
  }

  /** A serialised name or value. Its characters can never be taken for
      the `&`, `=`, `?` or `#` delimiters of a URL. */
  function FormEncode(s: string): (r: string)
    ensures forall i :: 0 <= i < |r| ==> r[i] == '%' || r[i] == '+' || Unreserved(r[i])
    ensures |s| <= |r|
  {
    if |s| == 0 then "" else EncodeChar(s[0]) + FormEncode(s[1..])
  }

  /** Text made of unreserved characters is serialised as itself, so the
      wire names of the campaign phases appear verbatim in a query. */
  lemma {:induction false} FormEncodeUnreserved(s: string)
    requires forall i :: 0 <= i < |s| ==> Unreserved(s[i])
    ensures FormEncode(s) == s
  {
    if |s| > 0 {
      FormEncodeUnreserved(s[1..]);
      assert s == [s[0]] + s[1..];
    }
  }
}
