/** base64url without padding (RFC 4648 section 5, RFC 7636 Appendix A): what the sign-in code strips when
    it writes a verifier, and what it puts back before it decodes the payload of a token. */
module Base64Url {
  import opened Collections

  // ----- The alphabet -----

  function Symbol(n: nat): char
    requires n < 64
  {
    if n < 26 then ('A' as int + n) as char
    else if n < 52 then ('a' as int + n - 26) as char
    else if n < 62 then ('0' as int + n - 52) as char
    else if n == 62 then '-' else '_'
  }

  function Index(c: char): Option<nat> {
    if 'A' <= c <= 'Z' then Some(c as int - 'A' as int)
    else if 'a' <= c <= 'z' then Some(c as int - 'a' as int + 26)
    else if '0' <= c <= '9' then Some(c as int - '0' as int + 52)
    else if c == '-' then Some(62)
    else if c == '_' then Some(63)
    else None
  }

  const PAD := '='

  lemma SymbolsAreRead(n: nat)
    requires n < 64
    ensures Index(Symbol(n)) == Some(n) && Symbol(n) != PAD
  {
  }

  // ----- Encoding, with padding -----

  function Quad(a: byte, b: byte, c: byte): string {
    var n := a as int * 65536 + b as int * 256 + c as int;
    [Symbol(n / 262144), Symbol(n / 4096 % 64), Symbol(n / 64 % 64), Symbol(n % 64)]
  }

  function Encode(raw: seq<byte>): string {
    if |raw| == 0 then ""
    else if |raw| == 1 then Quad(raw[0], 0, 0)[..2] + "=="
    else if |raw| == 2 then Quad(raw[0], raw[1], 0)[..3] + "="
    else Quad(raw[0], raw[1], raw[2]) + Encode(raw[3..])
  }

  /** `_b64url`: the encoding with its trailing padding taken off. */
  function Unpadded(raw: seq<byte>): string {
    StripPadding(Encode(raw))
  }

  function StripPadding(s: string): string {
    if s != "" && s[|s| - 1] == PAD then StripPadding(s[..|s| - 1]) else s
  }

  function Pads(n: nat): string {
    if n == 0 then "" else [PAD] + Pads(n - 1)
  }

  /** `-n % 4`: the remainder is the non-negative one. */
  function Missing(n: nat): nat {
    -(n as int) % 4
  }

  function Repad(s: string): string {
    s + Pads(Missing(|s|))
  }

  // ----- Decoding -----

  function Three(w: nat, x: nat, y: nat, z: nat): seq<byte>
    requires w < 64 && x < 64 && y < 64 && z < 64
  {
    var n := w * 262144 + x * 4096 + y * 64 + z;
    [(n / 65536) as byte, (n / 256 % 256) as byte, (n % 256) as byte]
  }

  /** Decodes whole groups of four; padding may stand only at the end of the last. */
  function Decode(s: string): Option<seq<byte>> {
    if s == "" then Some([])
    else if |s| < 4 then None
    else
      var w, x := Index(s[0]), Index(s[1]);
      if w.None? || x.None? then None
      else if |s| == 4 && s[2] == PAD && s[3] == PAD then Some(Three(w.value, x.value, 0, 0)[..1])
      else
        var y := Index(s[2]);
        if y.None? then None
        else if |s| == 4 && s[3] == PAD then Some(Three(w.value, x.value, y.value, 0)[..2])
        else
          var z, rest := Index(s[3]), Decode(s[4..]);
          if z.None? || rest.None? then None else Some(Three(w.value, x.value, y.value, z.value) + rest.value)
  }

  // ----- Round trips -----

  lemma QuadIndices(a: byte, b: byte, c: byte, n: nat)
    requires n == a as int * 65536 + b as int * 256 + c as int
    ensures var q := Quad(a, b, c);
            && Index(q[0]) == Some(n / 262144) && Index(q[1]) == Some(n / 4096 % 64)
            && Index(q[2]) == Some(n / 64 % 64) && Index(q[3]) == Some(n % 64)
  {
    SymbolsAreRead(n / 262144);
    SymbolsAreRead(n / 4096 % 64);
    SymbolsAreRead(n / 64 % 64);
    SymbolsAreRead(n % 64);
  }

  lemma SixBitsMakeBytes(a: byte, b: byte, c: byte, n: nat)
    requires n == a as int * 65536 + b as int * 256 + c as int
    ensures n / 262144 < 64 && Three(n / 262144, n / 4096 % 64, n / 64 % 64, n % 64) == [a, b, c]
    ensures c == 0 ==> n % 64 == 0
    ensures b == 0 && c == 0 ==> n / 64 % 64 == 0
  {
    SplitSixBits(n);
    SplitBytes(a as int, b as int, c as int);
  }

  lemma QuadIsRead(a: byte, b: byte, c: byte)
    ensures var q := Quad(a, b, c);
            && (forall i | 0 <= i < 4 :: Index(q[i]).Some? && q[i] != PAD && Index(q[i]).value < 64)
            && Three(Index(q[0]).value, Index(q[1]).value, Index(q[2]).value, Index(q[3]).value) == [a, b, c]
            && (c == 0 ==> Index(q[3]).value == 0)
            && (b == 0 && c == 0 ==> Index(q[2]).value == 0)
  {
    var n := a as int * 65536 + b as int * 256 + c as int;
    QuadIndices(a, b, c, n);
    SixBitsMakeBytes(a, b, c, n);
  }

  lemma SplitSixBits(n: nat)
    ensures n == n / 262144 * 262144 + n / 4096 % 64 * 4096 + n / 64 % 64 * 64 + n % 64
  {
    assert n / 4096 == n / 64 / 64 && n / 262144 == n / 64 / 64 / 64;
  }

  lemma SplitBytes(a: nat, b: nat, c: nat)
    requires a < 256 && b < 256 && c < 256
    ensures var n := a * 65536 + b * 256 + c;
            && n / 65536 == a && n / 256 % 256 == b && n % 256 == c
            && (c == 0 ==> n % 64 == 0) && (b == 0 && c == 0 ==> n / 64 % 64 == 0)
  {
    var n := a * 65536 + b * 256 + c;
    assert n / 256 == a * 256 + b;
    assert n / 65536 == n / 256 / 256;
    if c == 0 { assert n == 64 * (a * 1024 + b * 4); }
    if b == 0 && c == 0 { assert n / 64 == 64 * (a * 16); }
  }

  lemma DecodeOne(a: byte)
    ensures Decode(Quad(a, 0, 0)[..2] + "==") == Some([a])
  {
    QuadIsRead(a, 0, 0);
    var s := Quad(a, 0, 0)[..2] + "==";
    assert s[0] == Quad(a, 0, 0)[0] && s[1] == Quad(a, 0, 0)[1] && s[2] == s[3] == PAD && |s| == 4;
    assert [a, 0 as byte, 0 as byte][..1] == [a];
  }

  lemma DecodeTwo(a: byte, b: byte)
    ensures Decode(Quad(a, b, 0)[..3] + "=") == Some([a, b])
  {
    QuadIsRead(a, b, 0);
    var q, s := Quad(a, b, 0), Quad(a, b, 0)[..3] + "=";
    assert s[0] == q[0] && s[1] == q[1] && s[2] == q[2] && s[3] == PAD && |s| == 4;
    assert [a, b, 0 as byte][..2] == [a, b];
  }

  lemma DecodeGroup(a: byte, b: byte, c: byte, rest: string)
    requires Decode(rest).Some?
    ensures Decode(Quad(a, b, c) + rest) == Some([a, b, c] + Decode(rest).value)
  {
    QuadIsRead(a, b, c);
    var q, s := Quad(a, b, c), Quad(a, b, c) + rest;
    assert s[0] == q[0] && s[1] == q[1] && s[2] == q[2] && s[3] == q[3] && s[4..] == rest;
  }

  lemma {:induction false} DecodeEncode(raw: seq<byte>)
    ensures Decode(Encode(raw)) == Some(raw)
  {
    if |raw| == 1 {
      DecodeOne(raw[0]);
      assert raw == [raw[0]];
    } else if |raw| == 2 {
      DecodeTwo(raw[0], raw[1]);
      assert raw == [raw[0], raw[1]];
    } else if |raw| >= 3 {
      DecodeEncode(raw[3..]);
      DecodeGroup(raw[0], raw[1], raw[2], Encode(raw[3..]));
      assert raw == [raw[0], raw[1], raw[2]] + raw[3..];
    }
  }

  predicate AllSymbols(s: string) {
    forall i | 0 <= i < |s| :: Index(s[i]).Some?
  }

  lemma ShapeOfAShortTail(raw: seq<byte>) returns (body: string)
    requires 1 <= |raw| <= 2
    ensures Encode(raw) == body + Pads(Missing(|body|)) && AllSymbols(body)
  {
    var b := if |raw| == 2 then raw[1] else 0;
    QuadIsRead(raw[0], b, 0);
    body := Quad(raw[0], b, 0)[..|raw| + 1];
    assert Pads(1) == "=" && Pads(2) == "==";
  }

  lemma FourMore(n: nat)
    ensures Missing(n + 4) == Missing(n)
  {
  }

  lemma FrontGroup(q: string, rest: string)
    requires |q| == 4
    ensures q + (rest + Pads(Missing(|rest|))) == (q + rest) + Pads(Missing(|q + rest|))
  {
    FourMore(|rest|);
    var pads := Pads(Missing(|rest|));
    assert |q + rest| == |rest| + 4 && Missing(|q + rest|) == Missing(|rest|);
    assert q + (rest + pads) == (q + rest) + pads;
  }

  /** An encoding is symbols, then the padding that fills the last group. */
  lemma {:induction false} EncodingShape(raw: seq<byte>) returns (body: string)
    ensures Encode(raw) == body + Pads(Missing(|body|)) && AllSymbols(body)
  {
    if |raw| == 0 {
      body := "";
    } else if |raw| <= 2 {
      body := ShapeOfAShortTail(raw);
    } else {
      var rest := EncodingShape(raw[3..]);
      var q := Quad(raw[0], raw[1], raw[2]);
      QuadIsRead(raw[0], raw[1], raw[2]);
      FrontGroup(q, rest);
      body := q + rest;
    }
  }

  lemma {:induction false} PadsComeOff(body: string, n: nat)
    requires body == "" || body[|body| - 1] != PAD
    ensures StripPadding(body + Pads(n)) == body
  {
    if n == 0 {
      assert body + "" == body;
    } else {
      PadsAtTheEnd(n);
      assert (body + Pads(n))[..|body + Pads(n)| - 1] == body + Pads(n - 1);
      PadsComeOff(body, n - 1);
    }
  }

  lemma {:induction false} PadsAtTheEnd(n: nat)
    requires n > 0
    ensures |Pads(n)| == n && Pads(n)[n - 1] == PAD && Pads(n)[..n - 1] == Pads(n - 1)
  {
    if n > 1 {
      PadsAtTheEnd(n - 1);
      assert Pads(n)[..n - 1] == [PAD] + Pads(n - 1)[..n - 2];
    }
  }

  /** For every byte string: putting back `-len % 4` equals signs restores the exact padding, so the
      decoder returns the original bytes; and what was written contains URL-safe symbols only. */
  lemma UnpaddedRoundTrip(raw: seq<byte>)
    ensures Repad(Unpadded(raw)) == Encode(raw)
    ensures Decode(Repad(Unpadded(raw))) == Some(raw)
    ensures AllSymbols(Unpadded(raw))
  {
    var body := EncodingShape(raw);
    assert body != "" ==> body[|body| - 1] != PAD;
    PadsComeOff(body, Missing(|body|));
    DecodeEncode(raw);
  }

  // ----- The alphabet and the bits -----

  const CAPITALS := "ABCDEFGHIJKLMNOPQRSTUVWXYZ"
  const SMALL := "abcdefghijklmnopqrstuvwxyz"
  const DIGITS := "0123456789"
  const ALPHABET := CAPITALS + SMALL + DIGITS + "-_"

  lemma CapitalIs(n: nat)
    requires n < 26
    ensures |CAPITALS| == 26 && CAPITALS[n] as int == 65 + n
  {
    assert CAPITALS[0] == 'A' && CAPITALS[1] == 'B' && CAPITALS[2] == 'C' && CAPITALS[3] == 'D' && CAPITALS[4] == 'E' && CAPITALS[5] == 'F' && CAPITALS[6] == 'G';
    assert CAPITALS[7] == 'H' && CAPITALS[8] == 'I' && CAPITALS[9] == 'J' && CAPITALS[10] == 'K' && CAPITALS[11] == 'L' && CAPITALS[12] == 'M';
    assert CAPITALS[13] == 'N' && CAPITALS[14] == 'O' && CAPITALS[15] == 'P' && CAPITALS[16] == 'Q' && CAPITALS[17] == 'R' && CAPITALS[18] == 'S' && CAPITALS[19] == 'T';
    assert CAPITALS[20] == 'U' && CAPITALS[21] == 'V' && CAPITALS[22] == 'W' && CAPITALS[23] == 'X' && CAPITALS[24] == 'Y' && CAPITALS[25] == 'Z';
  }

  lemma SmallIs(n: nat)
    requires n < 26
    ensures |SMALL| == 26 && SMALL[n] as int == 97 + n
  {
    assert SMALL[0] == 'a' && SMALL[1] == 'b' && SMALL[2] == 'c' && SMALL[3] == 'd' && SMALL[4] == 'e' && SMALL[5] == 'f' && SMALL[6] == 'g';
    assert SMALL[7] == 'h' && SMALL[8] == 'i' && SMALL[9] == 'j' && SMALL[10] == 'k' && SMALL[11] == 'l' && SMALL[12] == 'm';
    assert SMALL[13] == 'n' && SMALL[14] == 'o' && SMALL[15] == 'p' && SMALL[16] == 'q' && SMALL[17] == 'r' && SMALL[18] == 's' && SMALL[19] == 't';
    assert SMALL[20] == 'u' && SMALL[21] == 'v' && SMALL[22] == 'w' && SMALL[23] == 'x' && SMALL[24] == 'y' && SMALL[25] == 'z';
  }

  lemma DigitIs(n: nat)
    requires n < 10
    ensures |DIGITS| == 10 && DIGITS[n] as int == 48 + n
  {
  }

  /** The URL-safe alphabet of RFC 4648, section 5. */
  lemma SymbolIs(n: nat)
    requires n < 64
    ensures |ALPHABET| == 64 && Symbol(n) == ALPHABET[n]
  {
    CapitalIs(if n < 26 then n else 0);
    SmallIs(if 26 <= n < 52 then n - 26 else 0);
    DigitIs(if 52 <= n < 62 then n - 52 else 0);
  }

  lemma IndexIs(c: char)
    ensures Index(c).Some? ==> Index(c).value < 64 && ALPHABET[Index(c).value] == c
    ensures forall n | 0 <= n < 64 && ALPHABET[n] == c :: Index(c) == Some(n)
  {
    forall n | 0 <= n < 64 && ALPHABET[n] == c
      ensures Index(c) == Some(n)
    {
      SymbolIs(n);
      SymbolsAreRead(n);
    }
    if Index(c).Some? {
      SymbolIs(Index(c).value);
    }
  }

  /** The 24 bits of the group of three bytes number `g`. */
  function Group(raw: seq<byte>, g: nat): nat
    requires 3 * g + 2 < |raw|
  {
    65_536 * raw[3 * g] as int + 256 * raw[3 * g + 1] as int + raw[3 * g + 2] as int
  }

  /** Six of 24 bits, from the left. */
  function Six(n: nat, k: nat): (d: nat)
    requires k < 4
    ensures d < 64
  {
    if k == 0 then n / 262_144 % 64 else if k == 1 then n / 4096 % 64 else if k == 2 then n / 64 % 64 else n % 64
  }

  lemma QuadSymbols(a: byte, b: byte, c: byte, n: nat, k: nat)
    requires k < 4 && n == 65_536 * a as int + 256 * b as int + c as int
    ensures |Quad(a, b, c)| == 4 && Quad(a, b, c)[k] == Symbol(Six(n, k))
  {
    TopSix(n);
    var q := [Symbol(n / 262_144), Symbol(n / 4096 % 64), Symbol(n / 64 % 64), Symbol(n % 64)];
    assert Quad(a, b, c) == q;
    assert q[k] == if k == 0 then q[0] else if k == 1 then q[1] else if k == 2 then q[2] else q[3];
  }

  lemma TopSix(n: nat)
    requires n < 0x100_0000
    ensures n / 262_144 < 64 && n / 262_144 % 64 == n / 262_144
  {
  }

  lemma FirstQuad(raw: seq<byte>)
    requires |raw| >= 3
    ensures |Quad(raw[0], raw[1], raw[2])| == 4 && Encode(raw) == Quad(raw[0], raw[1], raw[2]) + Encode(raw[3..])
  {
  }

  /** Each full group of three bytes is written as the four symbols of its six-bit digits. */
  lemma {:induction false} EncodesBits(raw: seq<byte>, g: nat, k: nat)
    requires 3 * g + 2 < |raw| && k < 4
    ensures 4 * g + k < |Encode(raw)| && Encode(raw)[4 * g + k] == Symbol(Six(Group(raw, g), k))
  {
    FirstQuad(raw);
    if g == 0 {
      FrontSymbol(Quad(raw[0], raw[1], raw[2]), Encode(raw[3..]), k);
      QuadSymbols(raw[0], raw[1], raw[2], Group(raw, 0), k);
    } else {
      EncodesBits(raw[3..], g - 1, k);
      SameGroup(raw, g);
      NextQuad(Quad(raw[0], raw[1], raw[2]), Encode(raw[3..]), 4 * (g - 1) + k);
    }
  }

  lemma FrontSymbol(q: string, rest: string, k: nat)
    requires k < |q|
    ensures (q + rest)[k] == q[k]
  {
  }

  lemma SameGroup(raw: seq<byte>, g: nat)
    requires g > 0 && 3 * g + 2 < |raw|
    ensures 3 * (g - 1) + 2 < |raw[3..]| && Group(raw[3..], g - 1) == Group(raw, g)
  {
  }

  lemma NextQuad(q: string, rest: string, i: nat)
    requires |q| == 4 && i < |rest|
    ensures (q + rest)[i + 4] == rest[i]
  {
  }

  /** The test vectors of RFC 4648, section 10, that have a short last group. */
  lemma ShortGroups()
    ensures Encode([0x66]) == "Zg==" && Encode([0x66, 0x6F]) == "Zm8="
  {
  }
}
