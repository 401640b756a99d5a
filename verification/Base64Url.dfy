/** tools/sso.py: base64url without padding (section 5 of RFC 4648, Appendix C of RFC 7515), written out
    with the lenient decoder of the Python library it is built on. */
module Base64Url {
  import opened Basics
  import opened Options
  import opened Bytes

  // ----- sixty-four characters -----

  /** The character for a six-bit value. */
  function Char(v: nat): (c: char)
    requires v < 64
    ensures Value(c) == Some(v) && c != '=' && c != '.' && c as int < 128
  {
    if v < 26 then (v + 'A' as int) as char
    else if v < 52 then (v - 26 + 'a' as int) as char
    else if v < 62 then (v - 52 + '0' as int) as char
    else if v == 62 then '-'
    else '_'
  }

  /** The value of a character; the decoder knows the last two by either of their names. */
  function Value(c: char): (v: Option<nat>)
    ensures v.Some? ==> v.value < 64
  {
    if 'A' <= c <= 'Z' then Some(c as int - 'A' as int)
    else if 'a' <= c <= 'z' then Some(c as int - 'a' as int + 26)
    else if '0' <= c <= '9' then Some(c as int - '0' as int + 52)
    else if c == '-' || c == '+' then Some(62)
    else if c == '_' || c == '/' then Some(63)
    else None
  }

  // ----- encoding -----

  function Group(x: nat, y: nat, z: nat): (s: string)
    requires x < 256 && y < 256 && z < 256
    ensures |s| == 4
  {
    [Char(x / 4), Char(x % 4 * 16 + y / 16), Char(y % 16 * 4 + z / 64), Char(z % 64)]
  }

  /** Three bytes to four characters; the characters a short last group does not fill are left out. */
  function Core(b: seq<byte>): string {
    if |b| >= 3 then Group(b[0] as nat, b[1] as nat, b[2] as nat) + Core(b[3..])
    else if |b| == 2 then Group(b[0] as nat, b[1] as nat, 0)[..3]
    else if |b| == 1 then Group(b[0] as nat, 0, 0)[..2]
    else ""
  }

  /** The library's encoder puts equals signs in their place. */
  function Encode64(b: seq<byte>): string {
    if |b| >= 3 then Group(b[0] as nat, b[1] as nat, b[2] as nat) + Encode64(b[3..])
    else if |b| == 2 then Group(b[0] as nat, b[1] as nat, 0)[..3] + "="
    else if |b| == 1 then Group(b[0] as nat, 0, 0)[..2] + "=="
    else ""
  }

  function StripPadding(s: string): string {
    if s != "" && s[|s| - 1] == '=' then StripPadding(s[..|s| - 1]) else s
  }

  function Encode(b: seq<byte>): string {
    StripPadding(Encode64(b))
  }

  // ----- decoding -----

  function Byte(v: nat): byte
    requires v < 256
  {
    v as byte
  }

  /** How many values the bits left over from the current group can take. */
  function Room(quad: nat): nat {
    if quad == 1 then 64 else if quad == 2 then 16 else if quad == 3 then 4 else 1
  }

  /** The library's loop: characters outside the alphabet are skipped, and so is an equals sign unless it
      completes a group; a text that ends inside a group is an error. `quad` counts the characters of the
      current group, `left` holds the bits not yet written and `pads` the equals signs since the last one. */
  function Scan(s: string, quad: nat, left: nat, pads: nat): Option<seq<byte>>
    requires quad < 4 && left < Room(quad)
  {
    if s == "" then if quad == 0 then Some([]) else None
    else if s[0] == '=' then
      if quad >= 2 && quad + pads + 1 >= 4 then Some([])
      else Scan(s[1..], quad, left, if quad >= 2 then pads + 1 else pads)
    else if Value(s[0]).None? then Scan(s[1..], quad, left, pads)
    else
      var v := Value(s[0]).value;
      if quad == 0 then Scan(s[1..], 1, v, 0)
      else if quad == 1 then Prepend(Byte(left * 4 + v / 16), Scan(s[1..], 2, v % 16, 0))
      else if quad == 2 then Prepend(Byte(left * 16 + v / 4), Scan(s[1..], 3, v % 4, 0))
      else Prepend(Byte(left * 64 + v), Scan(s[1..], 0, 0, 0))
  }

  function Prepend(x: byte, rest: Option<seq<byte>>): Option<seq<byte>> {
    if rest.None? then None else Some([x] + rest.value)
  }

  function Equals(k: nat): string {
    if k == 0 then "" else Equals(k - 1) + "="
  }

  /** How many characters are missing from a multiple of four. */
  function Missing(n: nat): nat {
    (4 - n % 4) % 4
  }

  predicate Ascii(s: string) {
    forall c :: c in s ==> c as int < 128
  }

  /** Puts the padding back and decodes; None stands for the exception. */
  function Decode(s: string): Option<seq<byte>> {
    if !Ascii(s) then None else Scan(s + Equals(Missing(|s|)), 0, 0, 0)
  }

  // ----- encode, then decode -----

  /** One character of the alphabet, read in a given place of its group. */
  lemma ScanOne(v: nat, rest: string, quad: nat, left: nat)
    requires v < 64 && quad < 4
    requires left < Room(quad)
    ensures Scan([Char(v)] + rest, quad, left, 0)
      == if quad == 0 then Scan(rest, 1, v, 0)
         else if quad == 1 then Prepend(Byte(left * 4 + v / 16), Scan(rest, 2, v % 16, 0))
         else if quad == 2 then Prepend(Byte(left * 16 + v / 4), Scan(rest, 3, v % 4, 0))
         else Prepend(Byte(left * 64 + v), Scan(rest, 0, 0, 0))
  {
  }

  lemma ScanTwo(a: nat, b: nat, rest: string)
    requires a < 64 && b < 64
    ensures Scan([Char(a), Char(b)] + rest, 0, 0, 0) == Prepend(Byte(a * 4 + b / 16), Scan(rest, 2, b % 16, 0))
  {
  }

  lemma BitsBack(x: byte, y: byte, z: byte)
    ensures var a, b, c, d :=
      x as nat / 4, x as nat % 4 * 16 + y as nat / 16, y as nat % 16 * 4 + z as nat / 64, z as nat % 64;
      Byte(a * 4 + b / 16) == x && Byte(b % 16 * 16 + c / 4) == y && Byte(c % 4 * 64 + d) == z
  {
  }

  lemma GroupParts(x: byte, y: byte, z: byte, rest: string)
    ensures var a, b, c, d :=
      x as nat / 4, x as nat % 4 * 16 + y as nat / 16, y as nat % 16 * 4 + z as nat / 64, z as nat % 64;
      Group(x as nat, y as nat, z as nat) + rest == [Char(a), Char(b)] + ([Char(c)] + ([Char(d)] + rest))
  {
  }

  /** A full group is read back as its three bytes. */
  lemma ScanGroup(x: byte, y: byte, z: byte, rest: string)
    ensures Scan(Group(x as nat, y as nat, z as nat) + rest, 0, 0, 0)
      == Prepend(x, Prepend(y, Prepend(z, Scan(rest, 0, 0, 0))))
  {
    hide Scan, Prepend, Byte, Char, Group;
    BitsBack(x, y, z);
    GroupParts(x, y, z, rest);
    var a, b, c, d := x as nat / 4, x as nat % 4 * 16 + y as nat / 16, y as nat % 16 * 4 + z as nat / 64, z as nat % 64;
    ScanTwo(a, b, [Char(c)] + ([Char(d)] + rest));
    ScanOne(c, [Char(d)] + rest, 2, b % 16);
    ScanOne(d, rest, 3, c % 4);
  }

  lemma PadsEnd()
    ensures Scan("==", 2, 0, 0) == Some([]) && Scan("=", 3, 0, 0) == Some([])
  {
  }

  /** A group of two bytes, with its padding. */
  lemma ScanPair(x: byte, y: byte)
    ensures Scan(Group(x as nat, y as nat, 0)[..3] + "=", 0, 0, 0) == Some([x, y])
  {
    var a, b, c := x as nat / 4, x as nat % 4 * 16 + y as nat / 16, y as nat % 16 * 4;
    assert Byte(a * 4 + b / 16) == x && Byte(b % 16 * 16 + c / 4) == y && c % 4 == 0;
    hide Scan, Byte;
    ScanTwo(a, b, [Char(c)] + "=");
    ScanOne(c, "=", 2, b % 16);
    PadsEnd();
    hide Char;
    assert Group(x as nat, y as nat, 0)[..3] + "=" == [Char(a), Char(b)] + ([Char(c)] + "=");
    assert [x] + ([y] + []) == [x, y];
  }

  lemma ScanLone(x: byte)
    ensures Scan(Group(x as nat, 0, 0)[..2] + "==", 0, 0, 0) == Some([x])
  {
    var a, b := x as nat / 4, x as nat % 4 * 16;
    assert Byte(a * 4 + b / 16) == x && b % 16 == 0;
    hide Scan, Byte;
    ScanTwo(a, b, "==");
    PadsEnd();
    hide Char;
    assert Group(x as nat, 0, 0)[..2] + "==" == [Char(a), Char(b)] + "==";
    assert [x] + [] == [x];
  }

  lemma ScanEmpty()
    ensures Scan("", 0, 0, 0) == Some([])
  {
  }

  lemma {:induction false} ScansPadded(b: seq<byte>)
    ensures Scan(Encode64(b), 0, 0, 0) == Some(b)
  {
    hide Scan, Group, Char, Byte;
    if b == [] {
      ScanEmpty();
    } else if |b| == 1 {
      ScanLone(b[0]);
      assert b == [b[0]];
    } else if |b| == 2 {
      ScanPair(b[0], b[1]);
      assert b == [b[0], b[1]];
    } else {
      ScansPadded(b[3..]);
      ScanGroup(b[0], b[1], b[2], Encode64(b[3..]));
      assert b == [b[0]] + ([b[1]] + ([b[2]] + b[3..]));
    }
  }

  /** Only the alphabet: no padding and no full stop. */
  ghost predicate Clean(s: string) {
    forall c :: c in s ==> Value(c).Some? && c as int < 128 && c != '=' && c != '.'
  }

  lemma {:induction false} CoreClean(b: seq<byte>)
    ensures Clean(Core(b)) && |Core(b)| == (4 * |b| + 2) / 3
  {
    if |b| >= 3 {
      CoreClean(b[3..]);
      GroupClean(b[0], b[1], b[2]);
      hide Value, Group;
    } else if |b| == 2 {
      GroupClean(b[0], b[1], 0);
    } else if |b| == 1 {
      GroupClean(b[0], 0, 0);
    }
  }

  lemma GroupClean(x: byte, y: byte, z: byte)
    ensures Clean(Group(x as nat, y as nat, z as nat))
  {
  }

  lemma ShortPads()
    ensures Equals(0) == "" && Equals(1) == "=" && Equals(2) == "=="
  {
  }

  lemma FourMore(n: nat)
    ensures Missing(4 + n) == Missing(n)
  {
  }

  /** The equals signs make the length a multiple of four. */
  lemma {:induction false} Padding(b: seq<byte>)
    ensures Encode64(b) == Core(b) + Equals(Missing(|Core(b)|))
  {
    hide Equals, Group;
    ShortPads();
    if |b| >= 3 {
      hide Missing;
      Padding(b[3..]);
      FourMore(|Core(b[3..])|);
    } else {
      assert |Core(b)| == (if b == [] then 0 else |b| + 1);
      assert Missing(0) == 0 && Missing(2) == 2 && Missing(3) == 1;
      hide Missing;
      assert b == [] ==> Core(b) + "" == Core(b);
    }
  }

  lemma {:induction false} StripsEquals(core: string, k: nat)
    requires Clean(core)
    ensures StripPadding(core + Equals(k)) == core
  {
    if k == 0 {
      assert core + Equals(k) == core;
      assert core != "" ==> core[|core| - 1] in core;
    } else {
      assert (core + Equals(k))[..|core + Equals(k)| - 1] == core + Equals(k - 1);
      StripsEquals(core, k - 1);
    }
  }

  /** Encoding without padding and decoding again is the identity on every byte string; the text in between
      is of the 64-character alphabet, so has no full stop and no padding, and is as short as can be. */
  lemma RoundTrip(b: seq<byte>)
    ensures Decode(Encode(b)) == Some(b)
    ensures Clean(Encode(b)) && |Encode(b)| == (4 * |b| + 2) / 3
  {
    hide Scan, Encode64, Core, Value;
    Padding(b);
    CoreClean(b);
    StripsEquals(Core(b), Missing(|Core(b)|));
    ScansPadded(b);
  }

  /** So encoding loses nothing. */
  lemma EncodeInjective(a: seq<byte>, b: seq<byte>)
    requires Encode(a) == Encode(b)
    ensures a == b
  {
    RoundTrip(a);
    RoundTrip(b);
  }

  // ----- which characters, and where -----

  /** The 64 characters in the order of their values (table 2 of RFC 4648). */
  const ALPHABET := "ABCDEFGHIJKLMNOPQRSTUVWXYZ" + "abcdefghijklmnopqrstuvwxyz" + "0123456789" + "-_"

  lemma LetterIs(v: nat)
    requires v < 26
    ensures "ABCDEFGHIJKLMNOPQRSTUVWXYZ"[v] == ('A' as int + v) as char
    ensures "abcdefghijklmnopqrstuvwxyz"[v] == ('a' as int + v) as char
  {
  }

  lemma CharIs(v: nat)
    requires v < 64
    ensures |ALPHABET| == 64 && Char(v) == ALPHABET[v]
  {
    if v < 26 {
      LetterIs(v);
      assert ALPHABET[v] == "ABCDEFGHIJKLMNOPQRSTUVWXYZ"[v];
    } else if v < 52 {
      LetterIs(v - 26);
      assert ALPHABET[v] == "abcdefghijklmnopqrstuvwxyz"[v - 26];
    } else if v < 62 {
      assert ALPHABET[v] == "0123456789"[v - 52];
    }
  }

  lemma ValueIs(v: nat, c: char)
    requires v < 64
    ensures Value(c) == Some(v) <==> c == Char(v) || (v == 62 && c == '+') || (v == 63 && c == '/')
  {
  }

  /** Each value is written as the character in its place, and read back from that; the decoder also takes the two
      characters of the standard alphabet that this one replaces, and nothing else. */
  lemma AlphabetMeans(v: nat, c: char)
    requires v < 64
    ensures |ALPHABET| == 64 && Char(v) == ALPHABET[v]
    ensures Value(c) == Some(v) <==> c == ALPHABET[v] || (v == 62 && c == '+') || (v == 63 && c == '/')
  {
    CharIs(v);
    ValueIs(v, c);
    hide Char, Value;
  }

  /** Byte k of the input, and zero past its end. */
  function ByteAt(b: seq<byte>, k: nat): nat {
    if k < |b| then b[k] as nat else 0
  }

  /** Three bytes read as one number, first byte first. */
  function Number(b: seq<byte>, q: nat): nat {
    ByteAt(b, 3 * q) * 65536 + ByteAt(b, 3 * q + 1) * 256 + ByteAt(b, 3 * q + 2)
  }

  /** The i-th six bits of the input, each group of three bytes giving four, first bits first. */
  function Sextet(b: seq<byte>, i: nat): nat {
    var n := Number(b, i / 4);
    if i % 4 == 0 then n / 262144 else if i % 4 == 1 then n / 4096 % 64 else if i % 4 == 2 then n / 64 % 64 else n % 64
  }

  lemma SixBits(x: nat, y: nat, z: nat)
    requires x < 256 && y < 256 && z < 256
    ensures var n := x * 65536 + y * 256 + z;
      && n / 262144 == x / 4 && n / 4096 % 64 == x % 4 * 16 + y / 16
      && n / 64 % 64 == y % 16 * 4 + z / 64 && n % 64 == z % 64
  {
    var n := x * 65536 + y * 256 + z;
    var a, b, c, d, e, f := x / 4, x % 4, y / 16, y % 16, z / 64, z % 64;
    assert n == a * 262144 + (b * 65536 + c * 4096 + d * 256 + z) && b * 65536 + c * 4096 + d * 256 + z < 262144;
    assert n == (a * 64 + (b * 16 + c)) * 4096 + (d * 256 + z) && d * 256 + z < 4096 && b * 16 + c < 64;
    assert n == ((a * 64 + (b * 16 + c)) * 64 + (d * 4 + e)) * 64 + f && d * 4 + e < 64;
    QuotientIs(n, 262144, a, b * 65536 + c * 4096 + d * 256 + z);
    QuotientIs(n, 4096, a * 64 + (b * 16 + c), d * 256 + z);
    QuotientIs(a * 64 + (b * 16 + c), 64, a, b * 16 + c);
    QuotientIs(n, 64, (a * 64 + (b * 16 + c)) * 64 + (d * 4 + e), f);
    QuotientIs((a * 64 + (b * 16 + c)) * 64 + (d * 4 + e), 64, a * 64 + (b * 16 + c), d * 4 + e);
  }

  lemma OneQuotient(m: nat, q: nat, r: nat, p: nat, t: nat)
    requires q * m + r == p * m + t && r < m && t < m
    ensures q == p
  {
    Apart(q, p, m);
    Apart(p, q, m);
  }

  lemma Apart(a: nat, b: nat, m: nat)
    ensures a < b ==> a * m + m <= b * m
  {
    if a < b {
      MulMonotone(a + 1, b, m);
    }
  }

  lemma QuotientIs(n: nat, m: nat, q: nat, r: nat)
    requires n == q * m + r && r < m
    ensures n / m == q && n % m == r
  {
    OneQuotient(m, q, r, n / m, n % m);
  }

  lemma GroupIsNumber(x: nat, y: nat, z: nat)
    requires x < 256 && y < 256 && z < 256
    ensures var n, g := x * 65536 + y * 256 + z, Group(x, y, z);
      && n / 262144 < 64
      && g[0] == Char(n / 262144) && g[1] == Char(n / 4096 % 64) && g[2] == Char(n / 64 % 64) && g[3] == Char(n % 64)
  {
    SixBits(x, y, z);
    hide Char, Value;
  }

  lemma {:induction false} CoreAt(b: seq<byte>, i: nat)
    requires i < |Core(b)|
    ensures Sextet(b, i) < 64 && Core(b)[i] == Char(Sextet(b, i))
  {
    hide Char, Group, Value;
    GroupIsNumber(ByteAt(b, 0), ByteAt(b, 1), ByteAt(b, 2));
    if |b| >= 3 && i >= 4 {
      CoreAt(b[3..], i - 4);
      Shifted(b, i);
    }
  }

  lemma Shifted(b: seq<byte>, i: nat)
    requires |b| >= 3 && i >= 4
    ensures Sextet(b, i) == Sextet(b[3..], i - 4)
  {
    var q := i / 4;
    assert (i - 4) / 4 == q - 1 && (i - 4) % 4 == i % 4;
    forall k: nat
      ensures ByteAt(b[3..], k) == ByteAt(b, k + 3)
    {
    }
  }

  /** Character i of an encoding is the alphabet's character for the i-th six bits of the input, as in section 4 of
      RFC 4648. */
  lemma EncodesBits(b: seq<byte>, i: nat)
    requires i < |Encode(b)|
    ensures Sextet(b, i) < 64 && Encode(b)[i] == ALPHABET[Sextet(b, i)]
  {
    Padding(b);
    CoreClean(b);
    StripsEquals(Core(b), Missing(|Core(b)|));
    CoreAt(b, i);
    hide Encode64, Core, Value, Sextet, Char;
    AlphabetMeans(Sextet(b, i), 'A');
  }

  // ----- which texts decode -----

  lemma {:induction false} EqualsFront(k: nat)
    requires k > 0
    ensures Equals(k) == "=" + Equals(k - 1)
  {
    if k <= 1 {
    } else {
      EqualsFront(k - 1);
    }
  }

  /** Reading padding at the end of the text. */
  lemma {:induction false} ScanPads(k: nat, quad: nat, left: nat, pads: nat)
    requires quad < 4 && left < Room(quad)
    requires quad >= 2 ==> quad + pads < 4
    ensures Scan(Equals(k), quad, left, pads).Some? <==> quad == 0 || (quad >= 2 && quad + pads + k >= 4)
  {
    if k == 0 {
    } else {
      EqualsFront(k);
      assert ("=" + Equals(k - 1))[1..] == Equals(k - 1);
      if quad >= 2 && quad + pads + 1 >= 4 {
      } else {
        ScanPads(k - 1, quad, left, if quad >= 2 then pads + 1 else pads);
      }
    }
  }

  /** n more characters and then k equals signs leave no group open. */
  predicate Complete(quad: nat, n: nat, k: nat) {
    var q := (quad + n) % 4;
    q == 0 || (q >= 2 && q + k >= 4)
  }

  lemma {:induction false} ScanClean(s: string, k: nat, quad: nat, left: nat)
    requires Clean(s) && quad < 4
    requires left < Room(quad)
    ensures Scan(s + Equals(k), quad, left, 0).Some?
      <==> Complete(quad, |s|, k)
  {
    if s == "" {
      assert s + Equals(k) == Equals(k);
      ScanPads(k, quad, left, 0);
    } else {
      assert s[0] in s;
      var v := Value(s[0]).value;
      var next, bits :=
        (quad + 1) % 4, if quad == 0 then v else if quad == 1 then v % 16 else if quad == 2 then v % 4 else 0;
      ScanStep(s, k, quad, left);
      assert Clean(s[1..]) by {
        assert forall c :: c in s[1..] ==> c in s;
      }
      hide Scan, Value, Equals, Clean, Complete;
      ScanClean(s[1..], k, next, bits);
      OneMore(quad, |s|, k);
    }
  }

  lemma OneMore(quad: nat, n: nat, k: nat)
    requires quad < 4 && n > 0
    ensures Complete((quad + 1) % 4, n - 1, k) <==> Complete(quad, n, k)
  {
  }

  lemma ScanStep(s: string, k: nat, quad: nat, left: nat)
    requires s != "" && Value(s[0]).Some? && s[0] != '=' && quad < 4
    requires left < Room(quad)
    ensures var v := Value(s[0]).value;
      var bits := if quad == 0 then v else if quad == 1 then v % 16 else if quad == 2 then v % 4 else 0;
      Scan(s + Equals(k), quad, left, 0).Some? <==> Scan(s[1..] + Equals(k), (quad + 1) % 4, bits, 0).Some?
  {
    assert (s + Equals(k))[0] == s[0] && (s + Equals(k))[1..] == s[1..] + Equals(k);
    hide Value, Equals;
  }

  /** A text of the alphabet decodes exactly when its length is not one more than a multiple of four. */
  lemma DecodesIff(s: string)
    requires Clean(s)
    ensures Decode(s).Some? <==> |s| % 4 != 1
  {
    ScanClean(s, Missing(|s|), 0, 0);
    hide Scan;
  }

  // ----- what they decode to -----

  /** The value of character i, and zero past the end. */
  function ValueAt(s: string, i: nat): nat
    requires Clean(s)
  {
    if i < |s| then ValueOf(s, i) else 0
  }

  function ValueOf(s: string, i: nat): (v: nat)
    requires Clean(s) && i < |s|
    ensures v < 64 && Value(s[i]) == Some(v)
  {
    assert s[i] in s;
    Value(s[i]).value
  }

  /** Four characters read as one number, first character first. */
  function Quad(s: string, q: nat): nat
    requires Clean(s)
  {
    ValueAt(s, 4 * q) * 262144 + ValueAt(s, 4 * q + 1) * 4096 + ValueAt(s, 4 * q + 2) * 64 + ValueAt(s, 4 * q + 3)
  }

  /** The k-th eight bits of the text, each group of four characters giving three, first bits first. */
  function Octet(s: string, k: nat): nat
    requires Clean(s)
  {
    var n := Quad(s, k / 3);
    if k % 3 == 0 then n / 65536 else if k % 3 == 1 then n / 256 % 256 else n % 256
  }

  lemma EightBits(a: nat, b: nat, c: nat, d: nat)
    requires a < 64 && b < 64 && c < 64 && d < 64
    ensures var n := a * 262144 + b * 4096 + c * 64 + d;
      && n / 65536 == a * 4 + b / 16 && n / 256 % 256 == b % 16 * 16 + c / 4 && n % 256 == c % 4 * 64 + d
  {
    var n := a * 262144 + b * 4096 + c * 64 + d;
    var e, f, g, h := b / 16, b % 16, c / 4, c % 4;
    assert n == (a * 4 + e) * 65536 + (f * 4096 + c * 64 + d) && f * 4096 + c * 64 + d < 65536;
    assert n == ((a * 4 + e) * 256 + (f * 16 + g)) * 256 + (h * 64 + d) && f * 16 + g < 256 && h * 64 + d < 256;
    QuotientIs(n, 65536, a * 4 + e, f * 4096 + c * 64 + d);
    QuotientIs(n, 256, (a * 4 + e) * 256 + (f * 16 + g), h * 64 + d);
    QuotientIs((a * 4 + e) * 256 + (f * 16 + g), 256, a * 4 + e, f * 16 + g);
  }

  /** These bytes are the octets of the text, as many as it has in full. */
  ghost predicate Reads(s: string, b: seq<byte>)
    requires Clean(s)
  {
    |b| == 3 * |s| / 4 && forall k :: 0 <= k < |b| ==> b[k] as nat == Octet(s, k)
  }

  /** One alphabet character read in a given place of its group. */
  lemma ScanNext(c: char, rest: string, quad: nat, left: nat)
    requires Value(c).Some? && c != '=' && quad < 4 && left < Room(quad)
    ensures var v := Value(c).value;
      Scan([c] + rest, quad, left, 0)
      == if quad == 0 then Scan(rest, 1, v, 0)
         else if quad == 1 then Prepend(Byte(left * 4 + v / 16), Scan(rest, 2, v % 16, 0))
         else if quad == 2 then Prepend(Byte(left * 16 + v / 4), Scan(rest, 3, v % 4, 0))
         else Prepend(Byte(left * 64 + v), Scan(rest, 0, 0, 0))
  {
    assert ([c] + rest)[1..] == rest;
    hide Value;
  }

  lemma CleanAt(s: string, i: nat)
    requires Clean(s) && i < |s|
    ensures Value(s[i]).Some? && s[i] != '=' && Value(s[i]).value == ValueAt(s, i)
  {
    assert s[i] in s;
  }

  /** What one character does to the bits left over: nothing is written for the first of a group. */
  lemma ScanMove(s: string, i: nat, rest: string, left: nat)
    requires Clean(s) && i < |s| && i < 4 && left < Room(i)
    ensures var v := ValueAt(s, i);
      Scan(s[i..] + rest, i, left, 0)
      == if i == 0 then Scan(s[1..] + rest, 1, v, 0)
         else if i == 1 then Prepend(Byte(left * 4 + v / 16), Scan(s[2..] + rest, 2, v % 16, 0))
         else if i == 2 then Prepend(Byte(left * 16 + v / 4), Scan(s[3..] + rest, 3, v % 4, 0))
         else Prepend(Byte(left * 64 + v), Scan(s[4..] + rest, 0, 0, 0))
  {
    hide Scan, Value, Clean, Prepend, Byte, ValueAt;
    CleanAt(s, i);
    ScanNext(s[i], s[i + 1..] + rest, i, left);
    assert s[i..] + rest == [s[i]] + (s[i + 1..] + rest);
  }

  /** Reading a first group of two, three or four characters. */
  lemma ScanStart(s: string, rest: string)
    requires Clean(s) && |s| >= 2
    ensures var a, b, c, d := ValueAt(s, 0), ValueAt(s, 1), ValueAt(s, 2), ValueAt(s, 3);
      Scan(s + rest, 0, 0, 0)
      == Prepend(Byte(a * 4 + b / 16),
           if |s| == 2 then Scan(s[2..] + rest, 2, b % 16, 0)
           else Prepend(Byte(b % 16 * 16 + c / 4),
             if |s| == 3 then Scan(s[3..] + rest, 3, c % 4, 0)
             else Prepend(Byte(c % 4 * 64 + d), Scan(s[4..] + rest, 0, 0, 0))))
  {
    var a, b, c := ValueAt(s, 0), ValueAt(s, 1), ValueAt(s, 2);
    hide Value, Clean, Scan, Prepend, Byte, ValueAt;
    assert s[0..] == s;
    ScanMove(s, 0, rest, 0);
    ScanMove(s, 1, rest, a);
    if |s| >= 3 {
      ScanMove(s, 2, rest, b % 16);
      if |s| >= 4 {
        ScanMove(s, 3, rest, c % 4);
      }
    }
  }

  lemma PadsFinish(left: nat)
    ensures left < 16 ==> Scan(Equals(2), 2, left, 0) == Some([])
    ensures left < 4 ==> Scan(Equals(1), 3, left, 0) == Some([])
    ensures Scan(Equals(0), 0, 0, 0) == Some([])
  {
    ShortPads();
    hide Equals;
  }

  /** The first three octets of a text are those of its first four characters. */
  lemma FirstOctets(s: string)
    requires Clean(s)
    ensures var a, b, c, d := ValueAt(s, 0), ValueAt(s, 1), ValueAt(s, 2), ValueAt(s, 3);
      && Octet(s, 0) == a * 4 + b / 16 && Octet(s, 1) == b % 16 * 16 + c / 4 && Octet(s, 2) == c % 4 * 64 + d
      && a < 64 && b < 64 && c < 64 && d < 64
  {
    hide Value, Clean;
    EightBits(ValueAt(s, 0), ValueAt(s, 1), ValueAt(s, 2), ValueAt(s, 3));
  }

  lemma CleanTail(s: string)
    requires Clean(s) && |s| >= 4
    ensures Clean(s[4..])
  {
    assert forall c :: c in s[4..] ==> c in s;
  }

  lemma QuadShifts(s: string, q: nat)
    requires Clean(s) && |s| >= 4 && Clean(s[4..])
    ensures Quad(s[4..], q) == Quad(s, q + 1)
  {
    hide Value, Clean, ValueAt;
    ValueShifts(s, 4 * q);
    ValueShifts(s, 4 * q + 1);
    ValueShifts(s, 4 * q + 2);
    ValueShifts(s, 4 * q + 3);
  }

  lemma LaterOctets(s: string, k: nat)
    requires Clean(s) && |s| >= 4 && k >= 3
    ensures Clean(s[4..]) && Octet(s[4..], k - 3) == Octet(s, k)
  {
    hide Value, Clean, ValueAt, Quad;
    CleanTail(s);
    QuadShifts(s, k / 3 - 1);
    assert (k - 3) / 3 == k / 3 - 1 && (k - 3) % 3 == k % 3;
  }

  lemma ValueShifts(s: string, i: nat)
    requires Clean(s) && |s| >= 4 && Clean(s[4..])
    ensures ValueAt(s[4..], i) == ValueAt(s, i + 4)
  {
  }

  lemma {:induction false} ScanReads(s: string)
    requires Clean(s) && |s| % 4 != 1
    ensures var r := Scan(s + Equals(Missing(|s|)), 0, 0, 0); r.Some? && Reads(s, r.value)
  {
    hide Scan, Value, Equals, Clean, Octet, ValueAt;
    var k := Missing(|s|);
    PadsFinish(0);
    if |s| == 0 {
      assert s + Equals(0) == Equals(0);
    } else {
      FirstOctets(s);
      ScanStart(s, Equals(k));
      var a, b, c := ValueAt(s, 0), ValueAt(s, 1), ValueAt(s, 2);
      if |s| == 2 {
        PadsFinish(b % 16);
        assert s[2..] + Equals(2) == Equals(2);
      } else if |s| == 3 {
        PadsFinish(c % 4);
        assert s[3..] + Equals(1) == Equals(1);
      } else {
        LaterOctets(s, 3);
        ScanReads(s[4..]);
        FourMore(|s| - 4);
        var rest := Scan(s[4..] + Equals(k), 0, 0, 0).value;
        forall i | 3 <= i < 3 * |s| / 4
          ensures rest[i - 3] as nat == Octet(s, i)
        {
          LaterOctets(s, i);
        }
      }
    }
  }

  /** A text of the alphabet that decodes at all decodes to its octets: the bits of its characters in order, eight at a
      time, with those that do not fill a byte dropped. */
  lemma DecodesBits(s: string)
    requires Clean(s) && |s| % 4 != 1
    ensures Decode(s).Some? && Reads(s, Decode(s).value)
  {
    ScanReads(s);
    hide Scan;
  }

  // ----- other characters -----

  /** What the decoder looks at: the characters it knows, and equals signs. */
  function Known(s: string): string {
    if s == "" then "" else (if s[0] == '=' || Value(s[0]).Some? then [s[0]] else "") + Known(s[1..])
  }

  /** A text that is not ASCII never decodes; in any other, characters outside the alphabet are passed over. */
  lemma PassesOver(s: string)
    ensures (exists c :: c in s && c as int >= 128) ==> Decode(s) == None
    ensures (forall c :: c in s ==> c as int < 128) ==>
      Decode(s) == Scan(Known(s + Equals(Missing(|s|))), 0, 0, 0)
  {
    ScanKnown(s + Equals(Missing(|s|)), 0, 0, 0);
    hide Scan, Known;
  }

  lemma {:induction false} ScanKnown(s: string, quad: nat, left: nat, pads: nat)
    requires quad < 4 && left < Room(quad)
    ensures Scan(s, quad, left, pads) == Scan(Known(s), quad, left, pads)
  {
    if s == "" {
    } else {
      var rest := Known(s[1..]);
      assert ([s[0]] + rest)[1..] == rest && "" + rest == rest;
      if s[0] == '=' {
        if quad < 2 || quad + pads + 1 < 4 {
          ScanKnown(s[1..], quad, left, if quad >= 2 then pads + 1 else pads);
        }
      } else if Value(s[0]).None? {
        ScanKnown(s[1..], quad, left, pads);
      } else {
        var v := Value(s[0]).value;
        if quad == 0 {
          ScanKnown(s[1..], 1, v, 0);
        } else if quad == 1 {
          ScanKnown(s[1..], 2, v % 16, 0);
        } else if quad == 2 {
          ScanKnown(s[1..], 3, v % 4, 0);
        } else {
          ScanKnown(s[1..], 0, 0, 0);
        }
      }
    }
  }
}
