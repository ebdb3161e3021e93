/**
 * The string helpers of the web app's PocketBase client (src/lib/pocketbase.ts):
 * escaping a value for a filter expression, percent-encoding path segments
 * the way `encodeURIComponent` does, and building the URL of a stored file.
 */
module PocketBaseLib {
  import opened Wrappers
  import opened Strings

  /** `process.env.NEXT_PUBLIC_POCKETBASE_URL || 'http://127.0.0.1:8090'`. */
  const DefaultUrl: string := "http://127.0.0.1:8090"

  function PocketBaseUrl(setting: Option<string>): (url: string)
    ensures setting.Some? && setting.value != "" ==> url == setting.value
    ensures setting.None? || setting.value == "" ==> url == "http://127.0.0.1:8090"
  {
    if setting.Some? && setting.value != "" then setting.value else DefaultUrl
  }

  // ---------------------------------------------------- filter-value escaping

  /** `value.replace(/\\/g, '\\\\').replace(/"/g, '\\"')`. */
  function EscapeFilterValue(value: string): string {
    ReplaceChar(ReplaceChar(value, '\\', "\\\\"), '"', "\\\"")
  }

  /** The escape of one character. */
  function EscapeChar(c: char): string {
    if c == '\\' then "\\\\" else if c == '"' then "\\\"" else [c]
  }

  /** Escaping character by character. */
  function EscapeEach(s: string): string {
    if s == [] then "" else EscapeChar(s[0]) + EscapeEach(s[1..])
  }

  /** Reading an escaped string back: a backslash stands for the character after it. */
  function Unescape(t: string): string
    decreases |t|
  {
    if t == [] then ""
    else if t[0] == '\\' && |t| >= 2 then [t[1]] + Unescape(t[2..])
    else [t[0]] + Unescape(t[1..])
  }

  lemma {:induction false} ReplaceConcat(a: string, b: string, c: char, r: string)
    ensures ReplaceChar(a + b, c, r) == ReplaceChar(a, c, r) + ReplaceChar(b, c, r)
  {
    if a == [] {
      assert a + b == b;
    } else {
      assert (a + b)[0] == a[0] && (a + b)[1..] == a[1..] + b;
      ReplaceConcat(a[1..], b, c, r);
    }
  }

  /**
   * Backslashes are doubled before quotes are escaped, so the backslash put
   * in front of a quote is not doubled again: the two passes escape each
   * character on its own.
   */
  lemma {:induction false} EscapeIsEach(s: string)
    ensures EscapeFilterValue(s) == EscapeEach(s)
  {
    if s != [] {
      var first := ReplaceChar([s[0]], '\\', "\\\\");
      var others := ReplaceChar(s[1..], '\\', "\\\\");
      EscapeIsEach(s[1..]);
      assert s == [s[0]] + s[1..];
      ReplaceConcat([s[0]], s[1..], '\\', "\\\\");
      ReplaceConcat(first, others, '"', "\\\"");
      EscapeCharTwice(s[0]);
    }
  }

  /** Text without `c` is left as it is. */
  lemma {:induction false} ReplaceAbsent(s: string, c: char, r: string)
    requires c !in s
    ensures ReplaceChar(s, c, r) == s
  {
    if s != [] {
      assert s[0] != c && c !in s[1..];
      ReplaceAbsent(s[1..], c, r);
    }
  }

  /** A single character is replaced, or kept when it is not `c`. */
  lemma ReplaceOne(x: char, c: char, r: string)
    ensures x == c ==> ReplaceChar([x], c, r) == r
    ensures x != c ==> ReplaceChar([x], c, r) == [x]
  {
    assert [x][0] == x && [x][1..] == [];
  }

  /** The two passes escape a single character as `EscapeChar` does. */
  lemma EscapeCharTwice(x: char)
    ensures ReplaceChar(ReplaceChar([x], '\\', "\\\\"), '"', "\\\"") == EscapeChar(x)
  {
    ReplaceOne(x, '\\', "\\\\");
    if x == '\\' {
      assert "\\\\"[0] == '\\' && "\\\\"[1] == '\\';
      ReplaceAbsent("\\\\", '"', "\\\"");
    } else {
      ReplaceOne(x, '"', "\\\"");
    }
  }

  /** Unescaping the escaped value gives the value back. */
  lemma {:induction false} UnescapeEscape(s: string)
    ensures Unescape(EscapeFilterValue(s)) == s
  {
    EscapeIsEach(s);
    UnescapeEach(s);
  }

  lemma {:induction false} UnescapeEach(s: string)
    ensures Unescape(EscapeEach(s)) == s
  {
    if s != [] {
      UnescapeEach(s[1..]);
      var t := EscapeEach(s);
      assert t == EscapeChar(s[0]) + EscapeEach(s[1..]);
      if s[0] == '\\' || s[0] == '"' {
        assert t[0] == '\\' && t[1] == s[0] && t[2..] == EscapeEach(s[1..]);
      } else {
        assert t[0] == s[0] && t[1..] == EscapeEach(s[1..]);
      }
    }
  }

  lemma {:induction false} ReplaceKeepsOther(s: string, c: char, r: string, d: char)
    requires d != c && d !in r
    ensures Count(ReplaceChar(s, c, r), d) == Count(s, d)
  {
    if s != [] {
      ReplaceKeepsOther(s[1..], c, r, d);
      var head := if s[0] == c then r else [s[0]];
      CountConcat(head, ReplaceChar(s[1..], c, r), d);
      if s[0] == c {
        CountAbsent(r, d);
      }
    }
  }

  lemma {:induction false} CountAbsent(s: string, d: char)
    requires d !in s
    ensures Count(s, d) == 0
  {
    if s != [] {
      CountAbsent(s[1..], d);
    }
  }

  /** Escaping adds one character per backslash and one per quote. */
  lemma EscapeLength(s: string)
    ensures |EscapeFilterValue(s)| == |s| + Count(s, '\\') + Count(s, '"')
  {
    ReplaceLength(s, '\\', "\\\\");
    ReplaceLength(ReplaceChar(s, '\\', "\\\\"), '"', "\\\"");
    ReplaceKeepsOther(s, '\\', "\\\\", '"');
  }

  /** Every other character is left as it is. */
  lemma {:induction false} EscapeKeepsOthers(s: string)
    requires '\\' !in s && '"' !in s
    ensures EscapeFilterValue(s) == s
  {
    EscapeIsEach(s);
    EachKeepsOthers(s);
  }

  lemma {:induction false} EachKeepsOthers(s: string)
    requires '\\' !in s && '"' !in s
    ensures EscapeEach(s) == s
  {
    if s != [] {
      assert s[0] != '\\' && s[0] != '"';
      EachKeepsOthers(s[1..]);
    }
  }

  // ------------------------------------------------------ encodeURIComponent

  /** The characters `encodeURIComponent` leaves alone. */
  predicate Unreserved(c: char) {
    ('A' <= c <= 'Z') || ('a' <= c <= 'z') || ('0' <= c <= '9') ||
    c == '-' || c == '_' || c == '.' || c == '!' || c == '~' || c == '*' || c == '\'' || c == '(' || c == ')'
  }

  /** The UTF-8 bytes of a Unicode scalar value. */
  function Utf8(cp: nat): (bytes: seq<nat>)
    requires cp < 0x110000
    ensures 1 <= |bytes| <= 4
    ensures forall i :: 0 <= i < |bytes| ==> bytes[i] < 256
    ensures cp < 0x80 ==> bytes == [cp]
    ensures cp >= 0x80 ==> forall i :: 0 <= i < |bytes| ==> bytes[i] >= 0x80
  {
    if cp < 0x80 then [cp]
    else if cp < 0x800 then [0xC0 + cp / 64, 0x80 + cp % 64]
    else if cp < 0x10000 then [0xE0 + cp / 4096, 0x80 + (cp / 64) % 64, 0x80 + cp % 64]
    else [0xF0 + cp / 262144, 0x80 + (cp / 4096) % 64, 0x80 + (cp / 64) % 64, 0x80 + cp % 64]
  }

  function HexDigit(d: nat): char
    requires d < 16
  {
    "0123456789ABCDEF"[d]
  }

  /** `%XY`: a byte in upper-case hexadecimal. */
  function PercentByte(b: nat): (t: string)
    requires b < 256
    ensures |t| == 3 && t[0] == '%' && t[1] != '%' && t[2] != '%'
  {
    "%" + [HexDigit(b / 16), HexDigit(b % 16)]
  }

  function PercentBytes(bytes: seq<nat>): string
    requires forall i :: 0 <= i < |bytes| ==> bytes[i] < 256
  {
    if bytes == [] then "" else PercentByte(bytes[0]) + PercentBytes(bytes[1..])
  }

  /** The encoding of one character. */
  function EncodeChar(c: char): string {
    if Unreserved(c) then [c] else PercentBytes(Utf8(c as int))
  }

  /** `encodeURIComponent(s)`. */
  function EncodeURIComponent(s: string): string {
    if s == [] then "" else EncodeChar(s[0]) + EncodeURIComponent(s[1..])
  }

  /** `.replace(/%2F/g, '/')`: left to right, without overlaps. */
  function RestoreSlashes(t: string): string
    decreases |t|
  {
    if t == [] then ""
    else if |t| >= 3 && t[..3] == "%2F" then "/" + RestoreSlashes(t[3..])
    else [t[0]] + RestoreSlashes(t[1..])
  }

  /** `encodePathSegment`. */
  function EncodePathSegment(s: string): string {
    RestoreSlashes(EncodeURIComponent(s))
  }

  /** A path segment encoded character by character: a slash stays, everything else as `encodeURIComponent` has it. */
  function PathChars(s: string): string {
    if s == [] then "" else (if s[0] == '/' then "/" else EncodeChar(s[0])) + PathChars(s[1..])
  }

  lemma HexDigitNot(d: nat)
    requires d < 16
    ensures HexDigit(d) != '%'
    ensures d != 2 ==> HexDigit(d) != '2'
    ensures d != 15 ==> HexDigit(d) != 'F'
  {
  }

  /** Restoring slashes passes over a character other than `%`. */
  lemma RestoreOther(x: char, rest: string)
    requires x != '%'
    ensures RestoreSlashes([x] + rest) == [x] + RestoreSlashes(rest)
  {
    var t := [x] + rest;
    assert t[0] == x && t[1..] == rest;
    assert |t| >= 3 ==> t[..3][0] == x;
  }

  lemma SlashByte()
    ensures PercentByte(0x2F) == "%2F"
  {
    assert HexDigit(2) == '2' && HexDigit(15) == 'F';
  }

  /** Restoring slashes passes over one encoded byte, turning only `%2F` into `/`. */
  lemma RestoreByte(b: nat, rest: string)
    requires b < 256
    ensures b == 0x2F ==> RestoreSlashes(PercentByte(b) + rest) == "/" + RestoreSlashes(rest)
    ensures b != 0x2F ==> RestoreSlashes(PercentByte(b) + rest) == PercentByte(b) + RestoreSlashes(rest)
  {
    if b == 0x2F {
      RestoreSlashByte(rest);
    } else {
      RestoreOtherByte(b, rest);
    }
  }

  lemma RestoreSlashByte(rest: string)
    ensures RestoreSlashes(PercentByte(0x2F) + rest) == "/" + RestoreSlashes(rest)
  {
    var t := PercentByte(0x2F) + rest;
    SlashByte();
    assert t[..3] == "%2F" && t[3..] == rest;
  }

  lemma RestoreOtherByte(b: nat, rest: string)
    requires b < 256 && b != 0x2F
    ensures RestoreSlashes(PercentByte(b) + rest) == PercentByte(b) + RestoreSlashes(rest)
  {
    var t := PercentByte(b) + rest;
    var hi := HexDigit(b / 16);
    var lo := HexDigit(b % 16);
    HexDigitNot(b / 16);
    HexDigitNot(b % 16);
    assert t[0] == '%' && t[1] == hi && t[2] == lo;
    assert t[..3] != "%2F" by {
      assert t[..3][1] == hi && t[..3][2] == lo;
    }
    assert t[1..] == [hi] + ([lo] + rest);
    RestoreOther(lo, rest);
    RestoreOther(hi, [lo] + rest);
    assert PercentByte(b) == [t[0], hi, lo];
  }

  lemma {:induction false} RestoreBytes(bytes: seq<nat>, rest: string)
    requires forall i :: 0 <= i < |bytes| ==> bytes[i] < 256 && bytes[i] != 0x2F
    ensures RestoreSlashes(PercentBytes(bytes) + rest) == PercentBytes(bytes) + RestoreSlashes(rest)
  {
    if bytes != [] {
      var tail := bytes[1..];
      var head := PercentByte(bytes[0]);
      var more := PercentBytes(tail);
      PercentBytesCons(bytes, rest);
      RestoreBytes(tail, rest);
      RestoreOtherByte(bytes[0], more + rest);
      AppendAssoc3(head, more, RestoreSlashes(rest));
    } else {
      assert PercentBytes(bytes) + rest == rest;
    }
  }

  lemma PercentBytesCons(bytes: seq<nat>, rest: string)
    requires bytes != [] && forall i :: 0 <= i < |bytes| ==> bytes[i] < 256
    ensures forall i :: 0 <= i < |bytes[1..]| ==> bytes[1..][i] < 256 && bytes[1..][i] == bytes[i + 1]
    ensures PercentBytes(bytes) + rest == PercentByte(bytes[0]) + (PercentBytes(bytes[1..]) + rest)
    ensures PercentBytes(bytes) == PercentByte(bytes[0]) + PercentBytes(bytes[1..])
  {
  }

  lemma AppendAssoc3(a: string, b: string, c: string)
    ensures a + (b + c) == (a + b) + c
  {
  }

  lemma RestoreChar(c: char, rest: string)
    ensures c == '/' ==> RestoreSlashes(EncodeChar(c) + rest) == "/" + RestoreSlashes(rest)
    ensures c != '/' ==> RestoreSlashes(EncodeChar(c) + rest) == EncodeChar(c) + RestoreSlashes(rest)
  {
    if Unreserved(c) {
      RestoreOther(c, rest);
    } else if c as int < 0x80 {
      assert Utf8(c as int) == [c as int];
      assert PercentBytes([c as int]) == PercentByte(c as int);
      RestoreByte(c as int, rest);
    } else {
      RestoreBytes(Utf8(c as int), rest);
    }
  }

  /**
   * `encodePathSegment` is `encodeURIComponent` with slashes left as they
   * are: a `%` of the input becomes `%25`, so only real slashes come back.
   */
  lemma {:induction false} PathSegmentChars(s: string)
    ensures EncodePathSegment(s) == PathChars(s)
  {
    if s != [] {
      PathSegmentChars(s[1..]);
      RestoreChar(s[0], EncodeURIComponent(s[1..]));
    }
  }

  /** A slash alone is encoded as `%2F`, which restoring turns back. */
  lemma EncodeSlash()
    ensures EncodeChar('/') == "%2F"
  {
    assert Utf8('/' as int) == [0x2F];
    assert PercentBytes([0x2F]) == PercentByte(0x2F) + "";
    SlashByte();
  }

  /** A percent sign is encoded as `%25`, so it never forms `%2F` with what follows. */
  lemma EncodePercent()
    ensures EncodeChar('%') == "%25"
  {
    assert Utf8('%' as int) == [0x25];
    assert PercentBytes([0x25]) == PercentByte(0x25) + "";
    assert HexDigit(2) == '2' && HexDigit(5) == '5';
  }

  /** No encoded character is a `?`, so no path segment or thumb can start a query. */
  lemma {:induction false} EncodedHasNoQuery(s: string)
    ensures '?' !in EncodeURIComponent(s)
    ensures '?' !in PathChars(s)
  {
    if s != [] {
      EncodedHasNoQuery(s[1..]);
      CharHasNoQuery(s[0]);
    }
  }

  lemma CharHasNoQuery(c: char)
    ensures '?' !in EncodeChar(c)
  {
    if !Unreserved(c) {
      BytesHaveNoQuery(Utf8(c as int));
    }
  }

  lemma {:induction false} BytesHaveNoQuery(bytes: seq<nat>)
    requires forall i :: 0 <= i < |bytes| ==> bytes[i] < 256
    ensures '?' !in PercentBytes(bytes)
  {
    if bytes != [] {
      BytesHaveNoQuery(bytes[1..]);
      var b := bytes[0];
      assert HexDigit(b / 16) != '?' && HexDigit(b % 16) != '?';
    }
  }

  // --------------------------------------------------- buildPocketBaseFileUrl

  /** `thumb ? ... : ...`: an absent or empty thumb adds no query. */
  predicate Truthy(thumb: Option<string>) {
    thumb.Some? && thumb.value != ""
  }

  /** `buildPocketBaseFileUrl` against the server at `url`. */
  function FileUrl(url: string, collection: string, recordId: string, fileName: string, thumb: Option<string>): string {
    var base := url + "/api/files/" + EncodePathSegment(collection) + "/" + EncodePathSegment(recordId) + "/" + EncodePathSegment(fileName);
    if Truthy(thumb) then base + "?thumb=" + EncodeURIComponent(thumb.value) else base
  }

  /**
   * The URL is the server, `/api/files/` and the three encoded segments,
   * followed by `?thumb=` and the encoded thumb exactly when a thumb is
   * given; for a server URL without `?`, the query starts at the URL's only
   * `?`.
   */
  lemma FileUrlParts(url: string, collection: string, recordId: string, fileName: string, thumb: Option<string>)
    ensures var base := url + "/api/files/" + PathChars(collection) + "/" + PathChars(recordId) + "/" + PathChars(fileName);
      && (Truthy(thumb) ==> FileUrl(url, collection, recordId, fileName, thumb) == base + "?thumb=" + EncodeURIComponent(thumb.value))
      && (!Truthy(thumb) ==> FileUrl(url, collection, recordId, fileName, thumb) == base)
      && ('?' !in url ==> '?' !in base)
  {
    PathSegmentChars(collection);
    PathSegmentChars(recordId);
    PathSegmentChars(fileName);
    EncodedHasNoQuery(collection);
    EncodedHasNoQuery(recordId);
    EncodedHasNoQuery(fileName);
  }
}
