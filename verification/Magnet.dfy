/**
 The magnet link (`BuildMagnet`, internal/nostr/nip35.go). A Go string is modelled as a string whose characters
 are its bytes.
 */
module Magnet {
  import opened Wrappers

  type Bytes = s: string | forall i | 0 <= i < |s| :: s[i] as int < 256

  const SCHEME := "magnet:?"
  const TOPIC := "urn:btih:"

  predicate IsHex(c: char) {
    '0' <= c <= '9' || 'a' <= c <= 'f' || 'A' <= c <= 'F'
  }

  /** A BitTorrent v1 infohash: 40 hexadecimal digits of either case. */
  predicate IsInfohash(s: string) {
    |s| == 40 && forall i | 0 <= i < |s| :: IsHex(s[i])
  }

  function ToUpper(s: string): string {
    seq(|s|, i requires 0 <= i < |s| => if 'a' <= s[i] <= 'z' then (s[i] as int - 32) as char else s[i])
  }

  // ---------------------------------------------------------------------------------------------
  // Form encoding (url.Values.Encode) and the replacement of '+'
  // ---------------------------------------------------------------------------------------------

  /** Section 2.3 of RFC 3986. */
  predicate Unreserved(c: char) {
    'A' <= c <= 'Z' || 'a' <= c <= 'z' || '0' <= c <= '9' || c == '-' || c == '.' || c == '_' || c == '~'
  }

  function Digit(n: nat): char
    requires n < 16
  {
    if n < 10 then ('0' as int + n) as char else ('A' as int + n - 10) as char
  }

  function Triplet(c: char): string
    requires c as int < 256
  {
    ['%', Digit(c as int / 16), Digit(c as int % 16)]
  }

  function QueryEscape(s: Bytes): string {
    if s == "" then ""
    else (if Unreserved(s[0]) then [s[0]] else if s[0] == ' ' then "+" else Triplet(s[0])) + QueryEscape(s[1..])
  }

  function ReplacePlus(s: string): string {
    if s == "" then "" else (if s[0] == '+' then "%20" else [s[0]]) + ReplacePlus(s[1..])
  }

  /** The pairs in the order of their keys, as Encode sorts them. */
  function Encode(title: Bytes, tracker: Bytes): string {
    if tracker == "" then Field("dn", QueryEscape(title))
    else Field("dn", QueryEscape(title)) + "&" + Field("tr", QueryEscape(tracker))
  }

  function Field(name: string, value: string): string {
    name + "=" + value
  }

  function BuildMagnet(infohash: string, title: Bytes, tracker: Bytes): string {
    SCHEME + (Field("xt", TOPIC + ToUpper(infohash)) + "&" + ReplacePlus(Encode(title, tracker)))
  }

  // ---------------------------------------------------------------------------------------------
  // Percent-encoding, as sections 2.1 and 2.3 of RFC 3986 define it, and its reader
  // ---------------------------------------------------------------------------------------------

  function PercentEncode(s: Bytes): string {
    if s == "" then ""
    else (if Unreserved(s[0]) then [s[0]] else Triplet(s[0])) + PercentEncode(s[1..])
  }

  function HexValue(c: char): int
    requires IsHex(c)
  {
    if '0' <= c <= '9' then c as int - '0' as int
    else if 'a' <= c <= 'f' then c as int - 'a' as int + 10
    else c as int - 'A' as int + 10
  }

  function PercentDecode(s: string): Option<string> {
    if s == "" then Some("")
    else if s[0] == '%' then
      if |s| < 3 || !IsHex(s[1]) || !IsHex(s[2]) then None
      else
        match PercentDecode(s[3..])
        case None => None
        case Some(rest) => Some([(16 * HexValue(s[1]) + HexValue(s[2])) as char] + rest)
    else
      match PercentDecode(s[1..])
      case None => None
      case Some(rest) => Some([s[0]] + rest)
  }

  /** The text before the first `c`, and the text after it if there is one. */
  function Cut(s: string, c: char): (string, Option<string>) {
    if s == "" then ("", None)
    else if s[0] == c then ("", Some(s[1..]))
    else
      var (head, tail) := Cut(s[1..], c);
      ([s[0]] + head, tail)
  }

  lemma {:induction false} CutLength(s: string, c: char)
    ensures Cut(s, c).1.Some? ==> |Cut(s, c).1.value| < |s|
  {
    if s != "" && s[0] != c {
      CutLength(s[1..], c);
    }
  }

  /** The name=value pairs of a query, values percent-decoded. */
  function ParseQuery(s: string): Option<seq<(string, string)>>
    decreases |s|
  {
    var (field, rest) := Cut(s, '&');
    var (name, value) := Cut(field, '=');
    if value.None? || PercentDecode(value.value).None? then None
    else if rest.None? then Some([(name, PercentDecode(value.value).value)])
    else
      CutLength(s, '&');
      match ParseQuery(rest.value)
      case None => None
      case Some(pairs) => Some([(name, PercentDecode(value.value).value)] + pairs)
  }

  function ParseMagnet(s: string): Option<seq<(string, string)>> {
    if SCHEME <= s then ParseQuery(s[|SCHEME|..]) else None
  }

  // ---------------------------------------------------------------------------------------------
  // Form-encoding with '+' replaced is percent-encoding
  // ---------------------------------------------------------------------------------------------

  lemma {:induction false} ReplaceConcat(a: string, b: string)
    ensures ReplacePlus(a + b) == ReplacePlus(a) + ReplacePlus(b)
  {
    if a == "" {
      assert a + b == b;
    } else {
      assert (a + b)[1..] == a[1..] + b;
      ReplaceConcat(a[1..], b);
    }
  }

  lemma {:induction false} ReplaceNothing(a: string)
    requires '+' !in a
    ensures ReplacePlus(a) == a
  {
    if a != "" {
      ReplaceNothing(a[1..]);
    }
  }

  lemma {:induction false} ReplacedIsPercent(s: Bytes)
    ensures ReplacePlus(QueryEscape(s)) == PercentEncode(s)
  {
    if s != "" {
      ReplacedIsPercent(s[1..]);
      if s[0] == ' ' {
        assert Triplet(' ') == "%20";
        ReplaceConcat("+", QueryEscape(s[1..]));
        assert "+"[1..] == "";
      } else {
        var head := if Unreserved(s[0]) then [s[0]] else Triplet(s[0]);
        ReplaceConcat(head, QueryEscape(s[1..]));
        ReplaceNothing(head);
      }
    }
  }

  /** The same names, percent-encoded. */
  function Encoded(title: Bytes, tracker: Bytes): string {
    if tracker == "" then Field("dn", PercentEncode(title))
    else Field("dn", PercentEncode(title)) + "&" + Field("tr", PercentEncode(tracker))
  }

  lemma FieldReplaced(name: string, s: Bytes)
    requires '+' !in name
    ensures ReplacePlus(Field(name, QueryEscape(s))) == Field(name, PercentEncode(s))
  {
    ReplacedIsPercent(s);
    ReplaceNothing(name + "=");
    ReplaceConcat(name + "=", QueryEscape(s));
  }

  lemma ReplaceJoined(a: string, b: string)
    ensures ReplacePlus(a + "&" + b) == ReplacePlus(a) + "&" + ReplacePlus(b)
  {
    ReplaceConcat(a + "&", b);
    ReplaceConcat(a, "&");
    ReplaceNothing("&");
  }

  /** What follows the infohash is the percent-encoding of the title and the tracker. */
  lemma NamesArePercentEncoded(title: Bytes, tracker: Bytes)
    ensures ReplacePlus(Encode(title, tracker)) == Encoded(title, tracker)
  {
    FieldReplaced("dn", title);
    if tracker != "" {
      FieldReplaced("tr", tracker);
      ReplaceJoined(Field("dn", QueryEscape(title)), Field("tr", QueryEscape(tracker)));
    }
  }

  /** Letters, digits and four signs stand for themselves. */
  predicate Safe(c: char) {
    'A' <= c <= 'Z' || 'a' <= c <= 'z' || '0' <= c <= '9' || c == '-' || c == '.' || c == '_' || c == '~'
  }

  /** Nothing else comes out bare, and what is safe is not touched: spaces and other signs are triplets. */
  lemma {:induction false} OutputIsSafe(s: Bytes)
    ensures forall c | c in PercentEncode(s) :: Safe(c) || c == '%'
    ensures (forall c | c in s :: Safe(c)) ==> PercentEncode(s) == s
  {
    if s != "" {
      OutputIsSafe(s[1..]);
      assert s == [s[0]] + s[1..];
      var head := if Unreserved(s[0]) then [s[0]] else Triplet(s[0]);
      assert forall i | 0 <= i < |head| :: Safe(head[i]) || head[i] == '%';
      assert PercentEncode(s) == head + PercentEncode(s[1..]);
      assert s[0] in s && forall c | c in s[1..] :: c in s;
    }
  }

  lemma DigitsExactly(n: nat)
    requires n < 16
    ensures Digit(n) == "0123456789ABCDEF"[n] && HexValue("0123456789ABCDEF"[n]) == n && HexValue("0123456789abcdef"[n]) == n
  {
  }

  /** Digits are kept, the letters are capitals of the same value. */
  lemma UpperExactly(s: string)
    requires IsInfohash(s)
    ensures var u := ToUpper(s);
            |u| == 40 && forall i | 0 <= i < 40 :: u[i] in "0123456789ABCDEF" && HexValue(u[i]) == HexValue(s[i])
  {
    forall i | 0 <= i < 40
      ensures ToUpper(s)[i] in "0123456789ABCDEF" && HexValue(ToUpper(s)[i]) == HexValue(s[i])
    {
      DigitsExactly(HexValue(s[i]));
    }
  }

  // ---------------------------------------------------------------------------------------------
  // Reading the link back
  // ---------------------------------------------------------------------------------------------

  predicate Plain(s: string) {
    '&' !in s && '=' !in s
  }

  lemma {:induction false} EncodedIsPlain(s: Bytes)
    ensures Plain(PercentEncode(s))
  {
    if s != "" {
      EncodedIsPlain(s[1..]);
    }
  }

  lemma {:induction false} DecodesEncoded(s: Bytes)
    ensures PercentDecode(PercentEncode(s)) == Some(s)
  {
    if s != "" {
      DecodesEncoded(s[1..]);
      var rest := PercentEncode(s[1..]);
      if Unreserved(s[0]) {
        assert ([s[0]] + rest)[1..] == rest;
      } else {
        assert (Triplet(s[0]) + rest)[3..] == rest;
        DigitsDecode(s[0]);
      }
      assert [s[0]] + s[1..] == s;
    }
  }

  lemma DigitsDecode(c: char)
    requires c as int < 256
    ensures IsHex(Triplet(c)[1]) && IsHex(Triplet(c)[2])
    ensures 16 * HexValue(Triplet(c)[1]) + HexValue(Triplet(c)[2]) == c as int
  {
  }

  lemma {:induction false} DecodesPlainText(s: string)
    requires '%' !in s
    ensures PercentDecode(s) == Some(s)
  {
    if s != "" {
      DecodesPlainText(s[1..]);
      assert [s[0]] + s[1..] == s;
    }
  }

  lemma {:induction false} CutsAt(a: string, c: char, b: string)
    requires c !in a
    ensures Cut(a + [c] + b, c) == (a, Some(b)) && Cut(a, c) == (a, None)
  {
    var s := a + [c] + b;
    if a == "" {
      assert s[1..] == b;
    } else {
      CutsAt(a[1..], c, b);
      assert s[1..] == a[1..] + [c] + b;
      assert [a[0]] + a[1..] == a;
    }
  }

  lemma ParsesLast(name: string, value: string, decoded: string)
    requires Plain(name) && Plain(value) && PercentDecode(value) == Some(decoded)
    ensures ParseQuery(Field(name, value)) == Some([(name, decoded)])
  {
    CutsAt(name, '=', value);
    CutsAt(Field(name, value), '&', "");
  }

  lemma ParsesFirst(name: string, value: string, decoded: string, rest: string)
    requires Plain(name) && Plain(value) && PercentDecode(value) == Some(decoded)
    ensures ParseQuery(Field(name, value) + "&" + rest) ==
            match ParseQuery(rest)
            case None => None
            case Some(pairs) => Some([(name, decoded)] + pairs)
  {
    CutsAt(name, '=', value);
    CutsAt(Field(name, value), '&', rest);
  }

  lemma UpperIsPlain(infohash: string)
    requires IsInfohash(infohash)
    ensures Plain(TOPIC + ToUpper(infohash)) && '%' !in TOPIC + ToUpper(infohash)
  {
  }

  /** The pairs a reader of the link is meant to get. */
  function Names(title: Bytes, tracker: Bytes): seq<(string, string)> {
    if tracker == "" then [("dn", title)] else [("dn", title)] + [("tr", tracker)]
  }

  lemma NamesParse(title: Bytes, tracker: Bytes)
    ensures ParseQuery(Encoded(title, tracker)) == Some(Names(title, tracker))
  {
    EncodedIsPlain(title);
    DecodesEncoded(title);
    if tracker == "" {
      ParsesLast("dn", PercentEncode(title), title);
    } else {
      EncodedIsPlain(tracker);
      DecodesEncoded(tracker);
      ParsesLast("tr", PercentEncode(tracker), tracker);
      ParsesFirst("dn", PercentEncode(title), title, Field("tr", PercentEncode(tracker)));
    }
  }

  /** Whatever the title and the tracker hold, a reader of the link gets them back, with the infohash in upper case. */
  lemma MagnetRoundTrip(infohash: string, title: Bytes, tracker: Bytes)
    requires IsInfohash(infohash)
    ensures ParseMagnet(BuildMagnet(infohash, title, tracker))
            == Some([("xt", "urn:btih:" + ToUpper(infohash)), ("dn", title)] + if tracker == "" then [] else [("tr", tracker)])
    ensures BuildMagnet(infohash, title, tracker)[..8] == "magnet:?"
  {
    var topic := TOPIC + ToUpper(infohash);
    ParsesAll(infohash, title, tracker);
    assert [("xt", topic)] + Names(title, tracker)
           == [("xt", topic), ("dn", title)] + if tracker == "" then [] else [("tr", tracker)];
  }

  lemma ParsesAll(infohash: string, title: Bytes, tracker: Bytes)
    requires IsInfohash(infohash)
    ensures ParseMagnet(BuildMagnet(infohash, title, tracker)) == Some([("xt", TOPIC + ToUpper(infohash))] + Names(title, tracker))
  {
    var topic := TOPIC + ToUpper(infohash);
    NamesArePercentEncoded(title, tracker);
    UpperIsPlain(infohash);
    DecodesPlainText(topic);
    NamesParse(title, tracker);
    ParsesFirst("xt", topic, topic, Encoded(title, tracker));
    Stripped(Field("xt", topic) + "&" + Encoded(title, tracker));
  }

  lemma Stripped(query: string)
    ensures ParseMagnet(SCHEME + query) == ParseQuery(query)
  {
    assert (SCHEME + query)[|SCHEME|..] == query;
  }
}
