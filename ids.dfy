/**
  Identifiers. A `Uuid` is the 16 bytes that `Uuid::as_bytes` returns. Its text form is the
  lower-case hyphenated 8-4-4-4-12 form of section 3 of RFC 4122 (what `Uuid::to_string`
  writes), and `Parse` is `Uuid::parse_str` of the uuid crate (version 1), which also takes
  the simple, braced and URN forms and hex digits of either case.

  A stored document holds a Uuid field either as that text or as a BSON binary value; which
  one is a property of the serialiser, so it is a parameter here (`UuidEncoding`). A query
  carries a key (`IdKey`), and a stored Uuid matches the key exactly when its encoding equals
  the key: nothing converts between the two forms.
*/
module Ids {
  import opened Wrappers

  newtype byte = x: int | 0 <= x < 256

  type Uuid = b: seq<byte> | |b| == 16 witness [0, 0, 0, 0, 0, 0, 0, 0, 0, 0, 0, 0, 0, 0, 0, 0]

  /** The 12-byte BSON ObjectId that the store puts in `_id` of documents without one. */
  type ObjectId = b: seq<byte> | |b| == 12 witness [0, 0, 0, 0, 0, 0, 0, 0, 0, 0, 0, 0]

  // ----- hexadecimal digits -----

  function HexDigit(n: nat): (c: char)
    requires n < 16
  {
    if n < 10 then ('0' as int + n) as char else ('a' as int + n - 10) as char
  }

  /** The value of a hex digit of either case, as the uuid crate's parser reads it. */
  function HexValue(c: char): (r: Option<nat>)
    ensures r.Some? ==> r.value < 16
  {
    if '0' <= c <= '9' then Some(c as int - '0' as int)
    else if 'a' <= c <= 'f' then Some(c as int - 'a' as int + 10)
    else if 'A' <= c <= 'F' then Some(c as int - 'A' as int + 10)
    else None
  }

  predicate IsHexString(s: string) {
    forall i :: 0 <= i < |s| ==> HexValue(s[i]).Some?
  }

  predicate IsLowerHexString(s: string) {
    forall i :: 0 <= i < |s| ==> '0' <= s[i] <= '9' || 'a' <= s[i] <= 'f'
  }

  /** Two lower-case hex digits per byte, most significant digit first. */
  function HexOf(bytes: seq<byte>): (s: string)
    ensures |s| == 2 * |bytes|
  {
    if bytes == [] then ""
    else [HexDigit(bytes[0] as nat / 16), HexDigit(bytes[0] as nat % 16)] + HexOf(bytes[1..])
  }

  /** Decodes pairs of hex digits; fails on an odd length or a non-hex character. */
  function BytesOfHex(s: string): (r: Option<seq<byte>>)
    ensures r.Some? ==> 2 * |r.value| == |s|
  {
    if |s| == 0 then Some([])
    else if |s| == 1 then None
    else
      match (HexValue(s[0]), HexValue(s[1]), BytesOfHex(s[2..]))
      case (Some(hi), Some(lo), Some(rest)) => Some([(hi * 16 + lo) as byte] + rest)
      case _ => None
  }

  // ----- text forms -----

  /** The positions of the four hyphens in the 36-character hyphenated form. */
  predicate IsHyphenPos(i: int) {
    i == 8 || i == 13 || i == 18 || i == 23
  }

  /** Where the j-th of the 32 digits stands in the hyphenated form. */
  function DigitPos(j: nat): (i: nat)
    requires j < 32
    ensures i < 36 && !IsHyphenPos(i)
  {
    if j < 8 then j else if j < 12 then j + 1 else if j < 16 then j + 2 else if j < 20 then j + 3 else j + 4
  }

  /** Which digit stands at a non-hyphen position of the hyphenated form. */
  function DigitIndex(i: nat): (j: nat)
    requires i < 36 && !IsHyphenPos(i)
    ensures j < 32 && DigitPos(j) == i
  {
    if i < 8 then i else if i < 13 then i - 1 else if i < 18 then i - 2 else if i < 23 then i - 3 else i - 4
  }

  /** The 32 digits of a hyphenated form, without its hyphens. */
  function HyphenatedDigits(s: string): (d: string)
    requires |s| == 36
    ensures |d| == 32
  {
    seq(32, j requires 0 <= j < 32 => s[DigitPos(j)])
  }

  /** Lays 32 digits out in groups of 8, 4, 4, 4 and 12 separated by hyphens. */
  function Hyphenate(d: string): (s: string)
    requires |d| == 32
    ensures |s| == 36
  {
    seq(36, i requires 0 <= i < 36 => if IsHyphenPos(i) then '-' else d[DigitIndex(i)])
  }

  /** `Uuid::to_string`: the hyphenated form with lower-case digits. */
  function Format(u: Uuid): string {
    Hyphenate(HexOf(u))
  }

  predicate HasHyphens(s: string)
    requires |s| == 36
  {
    s[8] == '-' && s[13] == '-' && s[18] == '-' && s[23] == '-'
  }

  function ParseHyphenated(s: string): Option<Uuid>
    requires |s| == 36
  {
    if !HasHyphens(s) then None
    else match BytesOfHex(HyphenatedDigits(s))
      case Some(b) => Some(b)
      case None => None
  }

  /** `Uuid::parse_str`: the input's length selects the form it must have. */
  function Parse(s: string): Option<Uuid> {
    if |s| == 32 then
      match BytesOfHex(s)
      case Some(b) => Some(b)
      case None => None
    else if |s| == 36 then ParseHyphenated(s)
    else if |s| == 38 && s[0] == '{' && s[37] == '}' then ParseHyphenated(s[1..37])
    else if |s| == 45 && s[..9] == "urn:uuid:" then ParseHyphenated(s[9..])
    else None
  }

  /** The four forms the parser accepts, stated position by position. */
  predicate IsHyphenatedForm(s: string) {
    |s| == 36 &&
    forall i :: 0 <= i < 36 ==> if IsHyphenPos(i) then s[i] == '-' else HexValue(s[i]).Some?
  }

  predicate WellFormed(s: string) {
    || (|s| == 32 && IsHexString(s))
    || IsHyphenatedForm(s)
    || (|s| == 38 && s[0] == '{' && s[37] == '}' && IsHyphenatedForm(s[1..37]))
    || (|s| == 45 && s[..9] == "urn:uuid:" && IsHyphenatedForm(s[9..]))
  }

  /** The form `Format` writes. */
  predicate IsCanonical(s: string) {
    |s| == 36 &&
    forall i :: 0 <= i < 36 ==> if IsHyphenPos(i) then s[i] == '-' else '0' <= s[i] <= '9' || 'a' <= s[i] <= 'f'
  }

  // ----- hex lemmas -----

  lemma {:induction false} BytesOfHexOf(bytes: seq<byte>)
    ensures BytesOfHex(HexOf(bytes)) == Some(bytes)
  {
    if bytes != [] {
      var b := bytes[0] as nat;
      var s := HexOf(bytes);
      assert s[2..] == HexOf(bytes[1..]);
      assert HexValue(s[0]) == Some(b / 16);
      assert HexValue(s[1]) == Some(b % 16);
      BytesOfHexOf(bytes[1..]);
      assert [bytes[0]] + bytes[1..] == bytes;
    }
  }

  lemma {:induction false} HexOfLower(bytes: seq<byte>, i: nat)
    requires i < |HexOf(bytes)|
    ensures '0' <= HexOf(bytes)[i] <= '9' || 'a' <= HexOf(bytes)[i] <= 'f'
  {
    if i >= 2 {
      assert HexOf(bytes)[i] == HexOf(bytes[1..])[i - 2];
      HexOfLower(bytes[1..], i - 2);
    }
  }

  lemma {:induction false} HexOfBytesOf(s: string)
    requires IsLowerHexString(s) && |s| % 2 == 0
    ensures BytesOfHex(s).Some? && HexOf(BytesOfHex(s).value) == s
  {
    if |s| > 0 {
      assert IsLowerHexString(s[2..]) by {
        forall i | 0 <= i < |s[2..]| ensures '0' <= s[2..][i] <= '9' || 'a' <= s[2..][i] <= 'f' {
          assert s[2..][i] == s[i + 2];
        }
      }
      HexOfBytesOf(s[2..]);
      var hi, lo := HexValue(s[0]).value, HexValue(s[1]).value;
      assert ((hi * 16 + lo) as byte) as nat / 16 == hi;
      assert ((hi * 16 + lo) as byte) as nat % 16 == lo;
      assert HexDigit(hi) == s[0];
      assert HexDigit(lo) == s[1];
      assert [s[0], s[1]] + s[2..] == s;
    }
  }

  lemma {:induction false} BytesOfHexDefined(s: string)
    ensures BytesOfHex(s).Some? <==> |s| % 2 == 0 && IsHexString(s)
  {
    if |s| >= 2 {
      BytesOfHexDefined(s[2..]);
      if IsHexString(s) {
        assert IsHexString(s[2..]) by {
          forall i | 0 <= i < |s[2..]| ensures HexValue(s[2..][i]).Some? {
            assert s[2..][i] == s[i + 2];
          }
        }
      }
      if HexValue(s[0]).Some? && HexValue(s[1]).Some? && IsHexString(s[2..]) {
        forall i | 0 <= i < |s| ensures HexValue(s[i]).Some? {
          if i >= 2 { assert s[i] == s[2..][i - 2]; }
        }
      }
    } else if |s| == 1 {
      assert |s| % 2 == 1;
    }
  }

  // ----- the hyphenated layout -----

  lemma HyphenateDigits(d: string)
    requires |d| == 32
    ensures HasHyphens(Hyphenate(d)) && HyphenatedDigits(Hyphenate(d)) == d
  {
    var s := Hyphenate(d);
    forall j | 0 <= j < 32 ensures HyphenatedDigits(s)[j] == d[j] {
      assert DigitIndex(DigitPos(j)) == j;
    }
  }

  lemma DigitsHyphenate(s: string)
    requires |s| == 36 && HasHyphens(s)
    ensures Hyphenate(HyphenatedDigits(s)) == s
  {
    var t := Hyphenate(HyphenatedDigits(s));
    forall i | 0 <= i < 36 ensures t[i] == s[i] {
      if !IsHyphenPos(i) {
        assert t[i] == HyphenatedDigits(s)[DigitIndex(i)];
      }
    }
  }

  // ----- the properties of the text form -----

  /** Parsing what `to_string` wrote gives back the same identifier. */
  lemma ParseFormat(u: Uuid)
    ensures IsCanonical(Format(u))
    ensures Parse(Format(u)) == Some(u)
  {
    var d := HexOf(u);
    HyphenateDigits(d);
    BytesOfHexOf(u);
    var s := Format(u);
    forall i | 0 <= i < 36 && !IsHyphenPos(i) ensures '0' <= s[i] <= '9' || 'a' <= s[i] <= 'f' {
      HexOfLower(u, DigitIndex(i));
    }
  }

  /** Distinct identifiers have distinct text forms. */
  lemma FormatInjective(u: Uuid, v: Uuid)
    ensures Format(u) == Format(v) <==> u == v
  {
    ParseFormat(u);
    ParseFormat(v);
  }

  /** A canonical string is the text form of the identifier it parses to. */
  lemma FormatParse(s: string)
    requires IsCanonical(s)
    ensures Parse(s).Some? && Format(Parse(s).value) == s
  {
    var d := HyphenatedDigits(s);
    assert IsLowerHexString(d) by {
      forall j | 0 <= j < 32 ensures '0' <= d[j] <= '9' || 'a' <= d[j] <= 'f' {
        assert d[j] == s[DigitPos(j)];
      }
    }
    HexOfBytesOf(d);
    DigitsHyphenate(s);
  }

  lemma HyphenatedDefined(s: string)
    requires |s| == 36
    ensures ParseHyphenated(s).Some? <==> IsHyphenatedForm(s)
  {
    var d := HyphenatedDigits(s);
    BytesOfHexDefined(d);
    if IsHyphenatedForm(s) {
      forall j | 0 <= j < 32 ensures HexValue(d[j]).Some? {
        assert d[j] == s[DigitPos(j)];
      }
    }
    if HasHyphens(s) && IsHexString(d) {
      forall i | 0 <= i < 36 && !IsHyphenPos(i) ensures HexValue(s[i]).Some? {
        assert s[i] == d[DigitIndex(i)];
      }
    }
  }

  /** `parse_str` fails (and the handlers answer 400) exactly on strings in none of the four forms. */
  lemma ParseAccepts(s: string)
    ensures Parse(s).Some? <==> WellFormed(s)
  {
    if |s| == 32 {
      BytesOfHexDefined(s);
    } else if |s| == 36 {
      HyphenatedDefined(s);
    } else if |s| == 38 && s[0] == '{' && s[37] == '}' {
      HyphenatedDefined(s[1..37]);
    } else if |s| == 45 && s[..9] == "urn:uuid:" {
      HyphenatedDefined(s[9..]);
    }
  }

  // ----- storage and query encodings -----

  /** How the serialiser lays out a Uuid field of a stored document. */
  datatype UuidEncoding = AsText | AsBinary(subtype: byte)

  /** The value a query filter compares a Uuid field with. */
  datatype IdKey = TextKey(text: string) | BinaryKey(subtype: byte, bytes: seq<byte>)

  function Encode(u: Uuid, enc: UuidEncoding): IdKey {
    match enc
    case AsText => TextKey(Format(u))
    case AsBinary(t) => BinaryKey(t, u)
  }

  /** `BinarySubtype::UserDefined(0)` converts to the subtype byte 0x00. */
  const UserDefinedZero: byte := 0

  /** The binary key the handlers build from a parsed Uuid. */
  function BinaryQuery(u: Uuid): IdKey {
    BinaryKey(UserDefinedZero, u)
  }

  /** A text key finds a stored Uuid only under text storage, and only its own text form. */
  lemma TextKeyMatches(u: Uuid, enc: UuidEncoding, s: string)
    ensures Encode(u, enc) == TextKey(s) <==> enc == AsText && s == Format(u)
  {
  }

  /** Under text storage the key built from `to_string` finds exactly that identifier. */
  lemma FormattedKeyMatches(u: Uuid, v: Uuid)
    ensures Encode(u, AsText) == TextKey(Format(v)) <==> u == v
  {
    FormatInjective(u, v);
  }

  /** A binary key finds a stored Uuid only under binary storage with subtype 0, and only itself. */
  lemma BinaryQueryMatches(u: Uuid, enc: UuidEncoding, v: Uuid)
    ensures Encode(u, enc) == BinaryQuery(v) <==> enc == AsBinary(UserDefinedZero) && u == v
  {
  }
}
