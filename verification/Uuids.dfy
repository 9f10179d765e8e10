/** 128-bit identifiers, their canonical text and the text forms accepted for them.
    The parser belongs to github.com/google/uuid, which is not part of the repository; `Parse` follows
    its published text forms: plain, with dashes, in braces, and with the urn:uuid: prefix. */
module Uuids {
  import opened Outcomes

  type Uuid = n: int | 0 <= n < 0x1_0000_0000_0000_0000_0000_0000_0000_0000

  const NIL: Uuid := 0

  function Pow16(k: nat): (p: nat)
    ensures p >= 1
  {
    if k == 0 then 1 else 16 * Pow16(k - 1)
  }

  lemma SpaceIsPow16()
    ensures Pow16(32) == 0x1_0000_0000_0000_0000_0000_0000_0000_0000
  {
    assert Pow16(2) == 0x100;
    assert Pow16(4) == 0x10000;
    assert Pow16(6) == 0x1000000;
    assert Pow16(8) == 0x100000000;
    assert Pow16(10) == 0x10000000000;
    assert Pow16(12) == 0x1000000000000;
    assert Pow16(14) == 0x100000000000000;
    assert Pow16(16) == 0x10000000000000000;
    assert Pow16(18) == 0x1000000000000000000;
    assert Pow16(20) == 0x100000000000000000000;
    assert Pow16(22) == 0x10000000000000000000000;
    assert Pow16(24) == 0x1000000000000000000000000;
    assert Pow16(26) == 0x100000000000000000000000000;
    assert Pow16(28) == 0x10000000000000000000000000000;
    assert Pow16(30) == 0x1000000000000000000000000000000;
    assert Pow16(32) == 0x100000000000000000000000000000000;
  }

  function HexDigit(d: nat): char
    requires d < 16
  {
    "0123456789abcdef"[d]
  }

  function HexValue(c: char): (v: Option<nat>)
    ensures v.Some? ==> v.value < 16
  {
    if '0' <= c <= '9' then Some(c as nat - '0' as nat)
    else if 'a' <= c <= 'f' then Some(c as nat - 'a' as nat + 10)
    else if 'A' <= c <= 'F' then Some(c as nat - 'A' as nat + 10)
    else None
  }

  /** The `k` lowest hexadecimal digits of `n`, most significant first. */
  function Digits(n: nat, k: nat): (s: string)
    ensures |s| == k
  {
    if k == 0 then "" else Digits(n / 16, k - 1) + [HexDigit(n % 16)]
  }

  function Number(s: string): (v: Option<nat>)
    ensures v.Some? ==> v.value < Pow16(|s|)
  {
    if s == "" then Some(0)
    else
      var high := Number(s[..|s| - 1]);
      var low := HexValue(s[|s| - 1]);
      if high.Some? && low.Some? then Some(16 * high.value + low.value) else None
  }

  lemma DigitValue(d: nat)
    requires d < 16
    ensures HexValue(HexDigit(d)) == Some(d)
  {
  }

  lemma NumberAppend(high: string, c: char)
    requires Number(high).Some? && HexValue(c).Some?
    ensures Number(high + [c]) == Some(16 * Number(high).value + HexValue(c).value)
  {
    assert (high + [c])[..|high|] == high;
  }

  lemma {:induction false} NumberOfDigits(n: nat, k: nat)
    requires n < Pow16(k)
    ensures Number(Digits(n, k)) == Some(n)
  {
    if k > 0 {
      NumberOfDigits(n / 16, k - 1);
      DigitValue(n % 16);
      NumberAppend(Digits(n / 16, k - 1), HexDigit(n % 16));
    }
  }

  function Dashed(d: string): string
    requires |d| == 32
  {
    d[..8] + "-" + d[8..12] + "-" + d[12..16] + "-" + d[16..20] + "-" + d[20..]
  }

  function Canonical(id: Uuid): (s: string)
    ensures |s| == 36
  {
    Dashed(Digits(id, 32))
  }

  function LowerChar(c: char): char {
    if 'A' <= c <= 'Z' then (c as int - 'A' as int + 'a' as int) as char else c
  }

  function LowerCase(s: string): string {
    seq(|s|, i requires 0 <= i < |s| => LowerChar(s[i]))
  }

  function FromDigits(d: string): Result<Uuid>
    requires |d| == 32
  {
    var n := Number(d);
    SpaceIsPow16();
    if n.Some? then Ok(n.value) else Err(InvalidUuid)
  }

  function Undashed(s: string): (d: string)
    requires |s| >= 36
    ensures |d| == 32
  {
    s[..8] + s[9..13] + s[14..18] + s[19..23] + s[24..36]
  }

  function FromDashed(s: string): Result<Uuid>
    requires |s| >= 36
  {
    if HasDashes(s) then FromDigits(Undashed(s)) else Err(InvalidUuid)
  }

  function Parse(s: string): Result<Uuid> {
    if |s| == 36 then FromDashed(s)
    else if |s| == 45 then
      if LowerCase(s[..9]) == "urn:uuid:" then FromDashed(s[9..]) else Err(InvalidUuid)
    else if |s| == 38 then FromDashed(s[1..])
    else if |s| == 32 then FromDigits(s)
    else Err(InvalidUuid)
  }

  lemma UndashedDashed(d: string)
    requires |d| == 32
    ensures Undashed(Dashed(d)) == d
  {
    var s := Dashed(d);
    assert s[..8] == d[..8];
    assert s[9..13] == d[8..12];
    assert s[14..18] == d[12..16];
    assert s[19..23] == d[16..20];
    assert s[24..36] == d[20..];
    assert d == d[..8] + d[8..12] + d[12..16] + d[16..20] + d[20..];
  }

  lemma ParseCanonical(id: Uuid)
    ensures Parse(Canonical(id)) == Ok(id)
  {
    var d := Digits(id, 32);
    UndashedDashed(d);
    SpaceIsPow16();
    NumberOfDigits(id, 32);
    assert FromDashed(Dashed(d)) == FromDigits(d);
  }

  // ---- every accepted spelling

  lemma LowerSlice(s: string, i: nat, j: nat)
    requires i <= j <= |s|
    ensures LowerCase(s[i..j]) == LowerCase(s)[i..j]
  {
  }

  /** A character is a digit of that worth exactly if it is written as that digit, in either case. */
  lemma DigitSpells(c: char, d: nat)
    requires d < 16
    ensures HexValue(c) == Some(d) <==> LowerChar(c) == HexDigit(d)
  {
    if HexValue(c).Some? {
      DigitValue(HexValue(c).value);
    }
    DigitValue(d);
    DigitIsLower(d);
  }

  lemma DigitIsLower(d: nat)
    requires d < 16
    ensures '0' <= HexDigit(d) <= '9' || 'a' <= HexDigit(d) <= 'f'
  {
  }

  lemma DivMod(high: nat, low: nat, n: nat)
    requires low < 16
    ensures 16 * high + low == n <==> high == n / 16 && low == n % 16
  {
  }

  lemma NumberLast(s: string, n: nat)
    requires s != ""
    ensures Number(s) == Some(n) <==> Number(s[..|s| - 1]) == Some(n / 16) && HexValue(s[|s| - 1]) == Some(n % 16)
  {
    var high, low := Number(s[..|s| - 1]), HexValue(s[|s| - 1]);
    if high.Some? && low.Some? {
      DivMod(high.value, low.value, n);
    }
  }

  lemma SameEnds(front: string, c: char, front': string, c': char)
    ensures front + [c] == front' + [c'] <==> front == front' && c == c'
  {
    if front + [c] == front' + [c'] {
      assert |front + [c]| == |front' + [c']|;
      assert (front + [c])[..|front|] == front && (front' + [c'])[..|front|] == front';
      assert (front + [c])[|front|] == c && (front' + [c'])[|front|] == c';
    }
  }

  lemma {:induction false} NumberSpells(s: string, n: nat)
    requires n < Pow16(|s|)
    ensures Number(s) == Some(n) <==> LowerCase(s) == Digits(n, |s|)
  {
    if s != "" {
      var front, c := s[..|s| - 1], s[|s| - 1];
      NumberLast(s, n);
      DigitSpells(c, n % 16);
      NumberSpells(front, n / 16);
      assert LowerCase(s) == LowerCase(front) + [LowerChar(c)];
      SameEnds(LowerCase(front), LowerChar(c), Digits(n / 16, |s| - 1), HexDigit(n % 16));
    }
  }

  lemma FromDigitsIff(d: string, id: Uuid)
    requires |d| == 32
    ensures FromDigits(d) == Ok(id) <==> LowerCase(d) == Digits(id, 32)
  {
    SpaceIsPow16();
    NumberSpells(d, id);
  }

  predicate HasDashes(s: string)
    requires |s| >= 36
  {
    s[8] == '-' && s[13] == '-' && s[18] == '-' && s[23] == '-'
  }

  lemma LowerKeepsDashes(s: string)
    requires |s| == 36
    ensures HasDashes(LowerCase(s)) <==> HasDashes(s)
    ensures LowerCase(Undashed(s)) == Undashed(LowerCase(s))
  {
    LowerSlice(s, 0, 8);
    LowerSlice(s, 9, 13);
    LowerSlice(s, 14, 18);
    LowerSlice(s, 19, 23);
    LowerSlice(s, 24, 36);
  }

  lemma FromDashedIff(s: string, id: Uuid)
    requires |s| == 36
    ensures FromDashed(s) == Ok(id) <==> LowerCase(s) == Canonical(id)
  {
    FromDigitsIff(Undashed(s), id);
    UndashedDashed(Digits(id, 32));
    LowerKeepsDashes(s);
    if HasDashes(s) {
      DashedUndashed(LowerCase(s));
    }
  }

  lemma DashedUndashed(l: string)
    requires |l| == 36 && HasDashes(l)
    ensures Dashed(Undashed(l)) == l
  {
    var d := Undashed(l);
    assert d[..8] == l[..8] && d[8..12] == l[9..13] && d[12..16] == l[14..18] && d[16..20] == l[19..23];
    assert d[20..] == l[24..];
    assert [l[8]] == [l[13]] == [l[18]] == [l[23]] == "-";
    assert l == l[..8] + [l[8]] + l[9..13] + [l[13]] + l[14..18] + [l[18]] + l[19..23] + [l[23]] + l[24..];
  }

  /** Nothing after the thirty-sixth character is looked at. */
  lemma FromDashedPrefix(s: string)
    requires |s| >= 36
    ensures FromDashed(s) == FromDashed(s[..36])
  {
    var t := s[..36];
    assert s[..8] == t[..8] && s[9..13] == t[9..13] && s[14..18] == t[14..18];
    assert s[19..23] == t[19..23] && s[24..36] == t[24..36];
  }

  lemma UrnIff(s: string, id: Uuid)
    requires |s| == 45
    ensures LowerCase(s[..9]) == "urn:uuid:" && FromDashed(s[9..]) == Ok(id)
            <==> LowerCase(s) == "urn:uuid:" + Canonical(id)
  {
    FromDashedIff(s[9..], id);
    LowerSlice(s, 0, 9);
    LowerSlice(s, 9, 45);
    var l := LowerCase(s);
    assert l == l[..9] + l[9..];
    assert ("urn:uuid:" + Canonical(id))[9..] == Canonical(id);
  }

  /** A text is read as an id exactly if, in lower case, it is the canonical text, the digits alone, or the canonical
      text after the urn prefix or between two characters of any kind. */
  lemma ParseIff(s: string, id: Uuid)
    ensures Parse(s) == Ok(id)
            <==> || LowerCase(s) == Canonical(id)
                 || LowerCase(s) == Digits(id, 32)
                 || LowerCase(s) == "urn:uuid:" + Canonical(id)
                 || (|s| == 38 && LowerCase(s[1..37]) == Canonical(id))
  {
    if |s| == 36 {
      FromDashedIff(s, id);
    } else if |s| == 45 {
      UrnIff(s, id);
    } else if |s| == 38 {
      FromDashedPrefix(s[1..]);
      FromDashedIff(s[1..37], id);
      assert s[1..][..36] == s[1..37];
    } else if |s| == 32 {
      FromDigitsIff(s, id);
    }
  }

  // ---- object keys

  /** The object key under which the payload of a binary file is kept. */
  function BlobKey(projectID: Uuid, fileID: Uuid, filename: string): string {
    "projects/" + Canonical(projectID) + "/files/" + Canonical(fileID) + "_" + filename
  }

  lemma BlobKeyInjective(p: Uuid, f: Uuid, n: string, p': Uuid, f': Uuid, n': string)
    requires BlobKey(p, f, n) == BlobKey(p', f', n')
    ensures p == p' && f == f' && n == n'
  {
    var k, k' := BlobKey(p, f, n), BlobKey(p', f', n');
    assert k[9..45] == Canonical(p) && k'[9..45] == Canonical(p');
    assert k[52..88] == Canonical(f) && k'[52..88] == Canonical(f');
    assert k[89..] == n && k'[89..] == n';
    ParseCanonical(p);
    ParseCanonical(p');
    ParseCanonical(f);
    ParseCanonical(f');
  }

  /** The keys of a project's files are exactly the keys under the project's own prefix. */
  lemma BlobKeyPrefixIff(p: Uuid, f: Uuid, n: string, q: Uuid)
    ensures "projects/" + Canonical(q) + "/files/" <= BlobKey(p, f, n) <==> p == q
  {
    var k, prefix := BlobKey(p, f, n), "projects/" + Canonical(q) + "/files/";
    ParseCanonical(p);
    ParseCanonical(q);
    assert k[9..45] == Canonical(p) && prefix[9..45] == Canonical(q);
    if prefix <= k {
      assert forall i :: 9 <= i < 45 ==> prefix[i] == k[i];
      assert prefix[9..45] == k[9..45];
    }
    if p == q {
      assert k == prefix + (Canonical(f) + "_" + n);
    }
  }
}
