/**
 Register values on their way to a Modbus device and back: hex strings, the byte and word swaps that
 a point is configured with, and the buffer that is handed to the stack.
 */
module RegisterCodec {
  import opened Wrappers
  import opened Arithmetic

  type Byte = x: int | 0 <= x < 256

  // ----- hex digits -----

  /** None where the code throws. */
  function Char2Int(c: char): (r: Option<nat>)
    ensures r.Some? ==> r.value < 16
  {
    if '0' <= c <= '9' then Some((c - '0') as nat)
    else if 'A' <= c <= 'F' then Some((c - 'A') as nat + 10)
    else if 'a' <= c <= 'f' then Some((c - 'a') as nat + 10)
    else None
  }

  function Digit(n: nat): (c: char)
    requires n < 16
    ensures Char2Int(c) == Some(n)
  {
    if n < 10 then '0' + n as char else 'A' + (n - 10) as char
  }

  /** The digits are these, in either case, and nothing else is one. */
  lemma DigitValues(c: char)
    ensures forall n: nat | n < 16 ::
              Char2Int(c) == Some(n) <==> c == "0123456789ABCDEF"[n] || c == "0123456789abcdef"[n]
    ensures Char2Int(c).Some? <==> c in "0123456789ABCDEF" || c in "0123456789abcdef"
  {
    if Char2Int(c).Some? {
      var n := Char2Int(c).value;
      assert c == "0123456789ABCDEF"[n] || c == "0123456789abcdef"[n];
    }
  }

  /** Digits are written in upper case. */
  lemma DigitIs(n: nat)
    requires n < 16
    ensures Digit(n) == "0123456789ABCDEF"[n]
  {
  }

  predicate IsHex(s: string) {
    forall i :: 0 <= i < |s| ==> Char2Int(s[i]).Some?
  }

  function ByteDigits(b: Byte): (s: string)
    ensures |s| == 2 && IsHex(s) && ByteOf(s[0], s[1]) == b
  {
    [Digit(b / 16), Digit(b % 16)]
  }

  function ByteOf(high: char, low: char): Byte
    requires Char2Int(high).Some? && Char2Int(low).Some?
  {
    Char2Int(high).value * 16 + Char2Int(low).value
  }

  /** Two digits a byte. */
  function Digits(v: seq<Byte>): (s: string)
    ensures IsHex(s) && |s| == 2 * |v|
  {
    if v == [] then [] else ByteDigits(v[0]) + Digits(v[1..])
  }

  function Bytes(s: string): (v: seq<Byte>)
    requires IsHex(s) && |s| % 2 == 0
    ensures |v| == |s| / 2
  {
    if s == [] then [] else [ByteOf(s[0], s[1])] + Bytes(s[2..])
  }

  function Upper(s: string): (r: string)
    requires IsHex(s)
    ensures |r| == |s| && forall i :: 0 <= i < |s| ==> r[i] == Digit(Char2Int(s[i]).value)
  {
    seq(|s|, i requires 0 <= i < |s| => Digit(Char2Int(s[i]).value))
  }

  lemma {:induction false} BytesOfDigits(v: seq<Byte>)
    ensures Bytes(Digits(v)) == v
  {
    if v == [] {
    } else {
      assert Digits(v)[2..] == Digits(v[1..]);
      BytesOfDigits(v[1..]);
    }
  }

  lemma {:induction false} DigitsOfBytes(s: string)
    requires IsHex(s) && |s| % 2 == 0
    ensures Digits(Bytes(s)) == Upper(s)
  {
    if s == [] {
    } else {
      DigitsOfBytes(s[2..]);
      assert Bytes(s)[1..] == Bytes(s[2..]);
      UpperStep(s);
    }
  }

  lemma UpperStep(s: string)
    requires IsHex(s) && |s| >= 2
    ensures Upper(s) == ByteDigits(ByteOf(s[0], s[1])) + Upper(s[2..])
  {
    HalvesOfByte(Char2Int(s[0]).value, Char2Int(s[1]).value);
  }

  lemma HalvesOfByte(high: nat, low: nat)
    requires high < 16 && low < 16
    ensures (high * 16 + low) / 16 == high && (high * 16 + low) % 16 == low
  {
  }

  lemma {:induction false} BytesAppend(s: string, t: string)
    requires IsHex(s) && |s| % 2 == 0 && IsHex(t) && |t| % 2 == 0
    ensures IsHex(s + t) && Bytes(s + t) == Bytes(s) + Bytes(t)
  {
    if s == [] {
      assert s + t == t;
    } else {
      BytesAppend(s[2..], t);
      assert (s + t)[2..] == s[2..] + t;
      Associate([ByteOf(s[0], s[1])], Bytes(s[2..]), Bytes(t));
    }
  }

  lemma {:induction false} DigitsAppend(v: seq<Byte>, w: seq<Byte>)
    ensures Digits(v + w) == Digits(v) + Digits(w)
  {
    if v == [] {
      assert v + w == w;
    } else {
      DigitsAppend(v[1..], w);
      assert (v + w)[1..] == v[1..] + w;
      Associate(ByteDigits(v[0]), Digits(v[1..]), Digits(w));
    }
  }

  lemma Associate<T>(a: seq<T>, b: seq<T>, c: seq<T>)
    ensures a + (b + c) == a + b + c
  {
  }

  // ----- the two permutations -----

  /** Swaps the bytes of every register; an odd last byte stays. */
  function SwapBytes(v: seq<Byte>): (r: seq<Byte>)
    ensures |r| == |v|
  {
    if |v| < 2 then v else [v[1], v[0]] + SwapBytes(v[2..])
  }

  /** Swaps the registers of every full pair. */
  function SwapWords(v: seq<Byte>): (r: seq<Byte>)
    ensures |r| == |v|
  {
    if |v| < 4 then v else [v[2], v[3], v[0], v[1]] + SwapWords(v[4..])
  }

  /** The byte swap exchanges the two bytes of every register; an odd last byte stays. */
  lemma {:induction false} SwapBytesAt(v: seq<Byte>, j: nat)
    ensures 2 * j + 1 < |v| ==> SwapBytes(v)[2 * j] == v[2 * j + 1] && SwapBytes(v)[2 * j + 1] == v[2 * j]
    ensures 2 * j + 1 == |v| ==> SwapBytes(v)[2 * j] == v[2 * j]
  {
    if j == 0 || |v| < 2 {
    } else {
      SwapBytesAt(v[2..], j - 1);
    }
  }

  /** The word swap exchanges the two registers of every full group of four bytes; the rest stays. */
  lemma {:induction false} SwapWordsAt(v: seq<Byte>, j: nat, e: nat)
    requires e < 4 && 4 * j + e < |v|
    ensures SwapWords(v)[4 * j + e] ==
            if |v| < 4 * j + 4 then v[4 * j + e] else if e < 2 then v[4 * j + e + 2] else v[4 * j + e - 2]
  {
    if j == 0 || |v| < 4 {
    } else {
      SwapWordsAt(v[4..], j - 1, e);
    }
  }

  /** The order in which `SwapConversion` reads the bytes of a value. */
  function Reordered(v: seq<Byte>, byteSwap: bool, wordSwap: bool): (r: seq<Byte>)
    ensures |r| == |v|
  {
    var words := if wordSwap then SwapWords(v) else v;
    if byteSwap then words else SwapBytes(words)
  }

  lemma {:induction false} SwapBytesTwice(v: seq<Byte>)
    ensures SwapBytes(SwapBytes(v)) == v
  {
    if |v| < 2 {
    } else {
      var rest := v[2..];
      SwapBytesTwice(rest);
      SwapPairThen(v[1], v[0], SwapBytes(rest));
      assert v == [v[0], v[1]] + rest;
    }
  }

  lemma SwapPairThen(a: Byte, b: Byte, rest: seq<Byte>)
    ensures SwapBytes([a, b] + rest) == [b, a] + SwapBytes(rest)
  {
    assert ([a, b] + rest)[2..] == rest;
  }

  lemma {:induction false} SwapWordsTwice(v: seq<Byte>)
    ensures SwapWords(SwapWords(v)) == v
  {
    if |v| < 4 {
    } else {
      assert SwapWords(v)[4..] == SwapWords(v[4..]);
      SwapWordsTwice(v[4..]);
    }
  }

  lemma {:induction false} SwapBytesAppend(v: seq<Byte>, w: seq<Byte>)
    requires |v| % 2 == 0
    ensures SwapBytes(v + w) == SwapBytes(v) + SwapBytes(w)
  {
    if v == [] {
      assert v + w == w;
    } else {
      SwapBytesAppend(v[2..], w);
      assert (v + w)[2..] == v[2..] + w;
      Associate([v[1], v[0]], SwapBytes(v[2..]), SwapBytes(w));
    }
  }

  lemma SwapFour(a: Byte, b: Byte, c: Byte, d: Byte)
    ensures SwapBytes([a, b, c, d]) == [b, a, d, c]
    ensures SwapWords([a, b, c, d]) == [c, d, a, b]
  {
    assert [a, b, c, d][2..] == [c, d];
    assert SwapBytes([c, d]) == [d, c];
  }

  lemma SwapBytesOfFour(a: Byte, b: Byte, c: Byte, d: Byte, rest: seq<Byte>)
    ensures SwapBytes([a, b, c, d] + rest) == [b, a, d, c] + SwapBytes(rest)
  {
    SwapFour(a, b, c, d);
    SwapBytesAppend([a, b, c, d], rest);
  }

  lemma SwapWordsOfFour(a: Byte, b: Byte, c: Byte, d: Byte, rest: seq<Byte>)
    ensures SwapWords([a, b, c, d] + rest) == [c, d, a, b] + SwapWords(rest)
  {
    assert ([a, b, c, d] + rest)[4..] == rest;
  }

  /** The permutations commute, whatever the length. */
  lemma {:induction false} SwapsCommute(v: seq<Byte>)
    ensures SwapBytes(SwapWords(v)) == SwapWords(SwapBytes(v))
  {
    if |v| >= 4 {
      var a, b, c, d, rest := v[0], v[1], v[2], v[3], v[4..];
      assert v == [a, b, c, d] + rest;
      SwapWordsOfFour(a, b, c, d, rest);
      SwapBytesOfFour(c, d, a, b, SwapWords(rest));
      SwapBytesOfFour(a, b, c, d, rest);
      SwapWordsOfFour(b, a, d, c, SwapBytes(rest));
      SwapsCommute(rest);
    } else if |v| >= 2 {
      assert SwapWords(v) == v;
    }
  }

  /** A write swaps with the byte flag negated and then stores every register's bytes swapped. That is the
      permutation of a read, which is its own inverse, for all four settings and any length. */
  lemma ReadUndoesWrite(v: seq<Byte>, byteSwap: bool, wordSwap: bool)
    ensures SwapBytes(Reordered(v, !byteSwap, wordSwap)) == Reordered(v, byteSwap, wordSwap)
    ensures Reordered(Reordered(v, byteSwap, wordSwap), byteSwap, wordSwap) == v
  {
    var words := if wordSwap then SwapWords(v) else v;
    SwapBytesTwice(words);
    SwapBytesTwice(v);
    SwapWordsTwice(v);
    SwapsCommute(words);
  }

  lemma ReorderedFour(v: seq<Byte>, byteSwap: bool, wordSwap: bool)
    requires |v| == 4
    ensures
      var byte1, byte2 := if byteSwap then 0 else 1, if byteSwap then 1 else 0;
      var word1, word2 := if wordSwap then 1 else 0, if wordSwap then 0 else 1;
      Reordered(v, byteSwap, wordSwap) ==
      [v[word1 * 2 + byte1], v[word1 * 2 + byte2], v[word2 * 2 + byte1], v[word2 * 2 + byte2]]
  {
    var a, b, c, d := v[0], v[1], v[2], v[3];
    assert v == [a, b, c, d];
    SwapFour(a, b, c, d);
    SwapFour(c, d, a, b);
  }

  lemma ReorderedTwo(v: seq<Byte>, byteSwap: bool, wordSwap: bool)
    requires |v| == 2
    ensures Reordered(v, byteSwap, wordSwap) == if byteSwap then [v[0], v[1]] else [v[1], v[0]]
  {
  }

  lemma ReorderedFourThen(a: Byte, b: Byte, c: Byte, d: Byte, rest: seq<Byte>, byteSwap: bool, wordSwap: bool)
    ensures Reordered([a, b, c, d] + rest, byteSwap, wordSwap) ==
            Reordered([a, b, c, d], byteSwap, wordSwap) + Reordered(rest, byteSwap, wordSwap)
  {
    SwapFour(a, b, c, d);
    SwapFour(c, d, a, b);
    if wordSwap {
      SwapWordsOfFour(a, b, c, d, rest);
      SwapBytesOfFour(c, d, a, b, SwapWords(rest));
    } else {
      SwapBytesOfFour(a, b, c, d, rest);
    }
  }

  lemma ReorderedShort(v: seq<Byte>, byteSwap: bool, wordSwap: bool)
    requires |v| < 4
    ensures Reordered(v, byteSwap, wordSwap) == if byteSwap then v else SwapBytes(v)
  {
  }

  // ----- formatting what was read -----

  function Hex(v: seq<Byte>): (s: string)
    ensures |s| == 2 * |v| + 2
  {
    "0x" + Digits(v)
  }

  /** The next stretch of a value that is formatted as one: two registers, one register or a last byte. */
  function Chunk(left: nat): (n: nat)
    ensures left > 0 ==> 0 < n <= left
  {
    if left >= 4 then 4 else if left >= 2 then 2 else left
  }

  lemma ReorderedChunk(v: seq<Byte>, n: nat, byteSwap: bool, wordSwap: bool)
    requires v != [] && n == Chunk(|v|)
    ensures Reordered(v, byteSwap, wordSwap) ==
            Reordered(v[..n], byteSwap, wordSwap) + Reordered(v[n..], byteSwap, wordSwap)
  {
    var chunk, rest := v[..n], v[n..];
    assert v == chunk + rest;
    if n == 4 {
      assert chunk == [v[0], v[1], v[2], v[3]];
      ReorderedFourThen(v[0], v[1], v[2], v[3], rest, byteSwap, wordSwap);
    } else {
      ReorderedShort(v, byteSwap, wordSwap);
      ReorderedShort(chunk, byteSwap, wordSwap);
      ReorderedShort(rest, byteSwap, wordSwap);
    }
  }

  lemma {:induction false} DigitsEnd(v: seq<Byte>, b: Byte)
    ensures Digits(v + [b]) == Digits(v) + ByteDigits(b)
  {
    DigitsAppend(v, [b]);
    assert Digits([b]) == ByteDigits(b) + Digits([]);
  }

  /** Writes two digits into the text, which is complete up to `i`. */
  method PutByte(sVal: array<char>, i: nat, b: Byte) returns (next: nat)
    requires i + 2 <= sVal.Length
    modifies sVal
    ensures next == i + 2 && sVal[..next] == old(sVal[..i]) + ByteDigits(b)
  {
    sVal[i] := ByteDigits(b)[0];
    sVal[i + 1] := ByteDigits(b)[1];
    next := i + 2;
  }

  method PutRegister(sVal: array<char>, i: nat, a: Byte, b: Byte) returns (next: nat)
    requires i + 4 <= sVal.Length
    modifies sVal
    ensures next == i + 4 && sVal[..next] == old(sVal[..i]) + Digits([a, b])
  {
    ghost var before := sVal[..i];
    DigitsEnd([], a);
    DigitsEnd([a], b);
    Associate(before, ByteDigits(a), ByteDigits(b));
    next := PutByte(sVal, i, a);
    next := PutByte(sVal, next, b);
  }

  method PutRegisters(sVal: array<char>, i: nat, a: Byte, b: Byte, c: Byte, d: Byte) returns (next: nat)
    requires i + 8 <= sVal.Length
    modifies sVal
    ensures next == i + 8 && sVal[..next] == old(sVal[..i]) + Digits([a, b, c, d])
  {
    ghost var before := sVal[..i];
    DigitsAppend([a, b], [c, d]);
    Associate(before, Digits([a, b]), Digits([c, d]));
    next := PutRegister(sVal, i, a, b);
    next := PutRegister(sVal, next, c, d);
  }

  /** Formats the next stretch of the value. */
  method PutChunk(sVal: array<char>, i: nat, vt: seq<Byte>, cur: nat, byteSwap: bool, wordSwap: bool)
    returns (next: nat)
    requires cur < |vt| && i + 2 * (|vt| - cur) <= sVal.Length
    modifies sVal
    ensures
      var left := vt[cur..];
      next == i + 2 * Chunk(|left|)
      && sVal[..next] == old(sVal[..i]) + Digits(Reordered(left[..Chunk(|left|)], byteSwap, wordSwap))
  {
    var byte1, byte2 := if byteSwap then 0 else 1, if byteSwap then 1 else 0;
    var word1, word2 := if wordSwap then 1 else 0, if wordSwap then 0 else 1;
    ghost var left := vt[cur..];
    ghost var chunk := left[..Chunk(|left|)];
    if |vt| - cur >= 4 {
      var b1, b2 := vt[cur + word1 * 2 + byte1], vt[cur + word1 * 2 + byte2];
      var b3, b4 := vt[cur + word2 * 2 + byte1], vt[cur + word2 * 2 + byte2];
      assert Reordered(chunk, byteSwap, wordSwap) == [b1, b2, b3, b4] by {
        ReorderedFour(chunk, byteSwap, wordSwap);
      }
      next := PutRegisters(sVal, i, b1, b2, b3, b4);
    } else if |vt| - cur >= 2 {
      assert Reordered(chunk, byteSwap, wordSwap) == [vt[cur + byte1], vt[cur + byte2]] by {
        ReorderedTwo(chunk, byteSwap, wordSwap);
      }
      next := PutRegister(sVal, i, vt[cur + byte1], vt[cur + byte2]);
    } else {
      assert Reordered(chunk, byteSwap, wordSwap) == [vt[cur]] by {
        assert chunk == [vt[cur]];
      }
      DigitsEnd([], vt[cur]);
      next := PutByte(sVal, i, vt[cur]);
    }
  }

  /** The text of the bytes that are left completes the text so far. */
  ghost predicate Completes(text: string, left: seq<Byte>, byteSwap: bool, wordSwap: bool, whole: string) {
    text + Digits(Reordered(left, byteSwap, wordSwap)) == whole
  }

  lemma CompletesNext(text: string, left: seq<Byte>, n: nat, byteSwap: bool, wordSwap: bool, whole: string)
    requires left != [] && n == Chunk(|left|) && Completes(text, left, byteSwap, wordSwap, whole)
    ensures Completes(text + Digits(Reordered(left[..n], byteSwap, wordSwap)), left[n..], byteSwap, wordSwap, whole)
  {
    var a, b := Reordered(left[..n], byteSwap, wordSwap), Reordered(left[n..], byteSwap, wordSwap);
    ReorderedChunk(left, n, byteSwap, wordSwap);
    DigitsAppend(a, b);
    Associate(text, Digits(a), Digits(b));
  }

  lemma CompletesAtEnd(text: string, byteSwap: bool, wordSwap: bool, whole: string)
    requires Completes(text, [], byteSwap, wordSwap, whole)
    ensures text == whole
  {
    assert text + [] == text;
  }

  /** Formats a value, swapping as asked. None stands for the null result of an empty value. */
  method SwapConversion(vt: seq<Byte>, byteSwap: bool, wordSwap: bool) returns (r: Option<string>)
    ensures r == if vt == [] then None else Some(Hex(Reordered(vt, byteSwap, wordSwap)))
  {
    if |vt| == 0 {
      return None;
    }
    var sVal := new char[|vt| * 2 + 2](_ => '0');
    sVal[1] := 'x';
    var i, cur := 2, 0;
    ghost var whole := Hex(Reordered(vt, byteSwap, wordSwap));
    ghost var text, left := "0x", vt;
    while cur < |vt|
      invariant 0 <= cur <= |vt| && i == 2 * cur + 2 && left == vt[cur..]
      invariant sVal[..i] == text && Completes(text, left, byteSwap, wordSwap, whole)
    {
      var n := Chunk(|vt| - cur);
      i := PutChunk(sVal, i, vt, cur, byteSwap, wordSwap);
      CompletesNext(text, left, n, byteSwap, wordSwap, whole);
      text, left := text + Digits(Reordered(left[..n], byteSwap, wordSwap)), left[n..];
      cur := cur + n;
    }
    CompletesAtEnd(text, byteSwap, wordSwap, whole);
    assert sVal[..i] == sVal[..];
    return Some(sVal[..]);
  }

  // ----- from a hex string to the buffer for the stack -----

  predicate HasPrefix(s: string) {
    |s| >= 2 && s[0] == '0' && (s[1] == 'x' || s[1] == 'X')
  }

  /** The digits of a hex string, with or without 0x. */
  function Body(s: string): string {
    if HasPrefix(s) then s[2..] else s
  }

  predicate IsValue(s: string) {
    |Body(s)| % 2 == 0 && IsHex(Body(s))
  }

  /** What `Hex2Bin` leaves in its target: the bytes of a value of the expected length, the two bytes of
      every register swapped. */
  function Binary(s: string, count: nat): (r: Option<seq<Byte>>)
    ensures r.Some? ==> |r.value| == count
  {
    if IsValue(s) && |Body(s)| / 2 == count then Some(SwapBytes(Bytes(Body(s)))) else None
  }

  /** The byte at two digits; past the end the string reads as zero, which is no digit. */
  function PairAt(s: string, i: nat): Option<Byte> {
    if i + 1 < |s| && Char2Int(s[i]).Some? && Char2Int(s[i + 1]).Some? then Some(ByteOf(s[i], s[i + 1])) else None
  }

  lemma BytesNext(s: string, j: nat)
    requires j <= |s| && j % 2 == 0 && IsHex(s[..j]) && PairAt(s, j).Some?
    ensures IsHex(s[..j + 2]) && (j + 2) % 2 == 0
    ensures Bytes(s[..j + 2]) == Bytes(s[..j]) + [PairAt(s, j).value]
  {
    var pair := s[j..j + 2];
    assert s[..j + 2] == s[..j] + pair;
    BytesAppend(s[..j], pair);
    assert Bytes(pair) == [ByteOf(pair[0], pair[1])] + Bytes(pair[2..]);
  }

  /** `t` holds the binary form of the first `j` digits. */
  ghost predicate Filled(t: seq<Byte>, body: string, j: nat) {
    j <= |body| && j % 2 == 0 && IsHex(body[..j]) && t == SwapBytes(Bytes(body[..j]))
  }

  lemma FilledByOne(t: seq<Byte>, body: string, j: nat)
    requires Filled(t, body, j) && |t| % 2 == 0 && PairAt(body, j).Some?
    ensures Filled(t + [PairAt(body, j).value], body, j + 2)
  {
    BytesNext(body, j);
    SwapBytesAppend(Bytes(body[..j]), [PairAt(body, j).value]);
  }

  lemma FilledByTwo(t: seq<Byte>, body: string, j: nat)
    requires Filled(t, body, j) && |t| % 2 == 0 && PairAt(body, j).Some? && PairAt(body, j + 2).Some?
    ensures Filled(t + [PairAt(body, j + 2).value, PairAt(body, j).value], body, j + 4)
  {
    var a, b := PairAt(body, j).value, PairAt(body, j + 2).value;
    BytesNext(body, j);
    BytesNext(body, j + 2);
    var v := Bytes(body[..j]);
    Associate(v, [a], [b]);
    assert [a] + [b] == [a, b];
    SwapBytesAppend(v, [a, b]);
    assert SwapBytes([a, b]) == [b, a];
  }

  lemma BadPair(body: string, j: nat)
    requires j + 1 < |body| && PairAt(body, j).None?
    ensures !IsHex(body)
  {
  }

  /** Stores the register at `pos`, or the single byte that is left; None for a bad digit. */
  method StoreRegister(body: string, count: nat, target: array<Byte>, pos: nat) returns (n: Option<nat>)
    requires pos < count <= target.Length && |body| == 2 * count
    requires pos % 2 == 0 && Filled(target[..pos], body, 2 * pos)
    modifies target
    ensures n.None? ==> !IsHex(body)
    ensures n.Some? ==>
              && (n.value == 2 || (n.value == 1 && pos + 1 == count))
              && pos + n.value <= count
              && Filled(target[..pos + n.value], body, 2 * (pos + n.value))
    ensures target[count..] == old(target[count..])
  {
    ghost var before := target[..pos];
    var i := 2 * pos;
    var byte1 := PairAt(body, i);
    if byte1.None? {
      BadPair(body, i);
      return None;
    }
    if i + 3 < |body| {
      var byte2 := PairAt(body, i + 2);
      if byte2.None? {
        BadPair(body, i + 2);
        return None;
      }
      FilledByTwo(before, body, i);
      target[pos] := byte2.value;
      target[pos + 1] := byte1.value;
      assert target[..pos + 2] == before + [byte2.value, byte1.value];
      return Some(2);
    }
    FilledByOne(before, body, i);
    target[pos] := byte1.value;
    assert target[..pos + 1] == before + [byte1.value];
    return Some(1);
  }

  lemma BinaryWhenFilled(t: seq<Byte>, src: string, count: nat)
    requires |Body(src)| == 2 * count && Filled(t, Body(src), 2 * count)
    ensures Binary(src, count) == Some(t)
  {
    assert Body(src)[..2 * count] == Body(src);
  }

  lemma LengthOfBody(src: string, count: nat)
    ensures |Body(src)| == 2 * count <==> |src| % 2 == 0 && |Body(src)| / 2 == count
  {
  }

  /** -1 for a string that is not a value of the expected length. */
  method Hex2Bin(src: string, iOpLen: nat, target: array<Byte>) returns (r: int)
    requires iOpLen <= target.Length
    modifies target
    ensures
      var binary := Binary(src, iOpLen);
      if binary.Some? then r == iOpLen && target[..iOpLen] == binary.value else r == -1
    ensures target[iOpLen..] == old(target[iOpLen..])
  {
    LengthOfBody(src, iOpLen);
    if |src| % 2 != 0 {
      return -1;
    }
    var body := Body(src);
    if |body| / 2 != iOpLen {
      return -1;
    }
    var pos := 0;
    while 2 * pos + 1 < |body|
      invariant 0 <= pos <= iOpLen && (pos % 2 == 0 || pos == iOpLen)
      invariant Filled(target[..pos], body, 2 * pos)
      invariant target[iOpLen..] == old(target[iOpLen..])
    {
      var n := StoreRegister(body, iOpLen, target, pos);
      if n.None? {
        return -1;
      }
      pos := pos + n.value;
    }
    BinaryWhenFilled(target[..pos], src, iOpLen);
    return pos;
  }

  datatype Filling = Stored | InvalidInput | ParsingException

  /** What a write request puts into the buffer. A swapped value is parsed and formatted first, and a bad
      digit found by that parse, or an empty value, is an exception. */
  function WriteData(strValue: string, byteSwap: bool, wordSwap: bool, count: nat): (Filling, seq<Byte>) {
    if (byteSwap || wordSwap) && (!IsValue(strValue) || Body(strValue) == []) then (ParsingException, [])
    else
      var value :=
        if byteSwap || wordSwap then Hex(Reordered(Bytes(Body(strValue)), !byteSwap, wordSwap)) else strValue;
      match Binary(value, count)
      case None => (InvalidInput, [])
      case Some(v) => (Stored, v)
  }

  method ParseBytes(strValue: string) returns (r: Option<seq<Byte>>)
    ensures r == if IsValue(strValue) then Some(Bytes(Body(strValue))) else None
  {
    var body := Body(strValue);
    var i, vt := 0, [];
    while i < |body|
      invariant 0 <= i <= |body| && i % 2 == 0 && IsHex(body[..i]) && vt == Bytes(body[..i])
    {
      var b := PairAt(body, i);
      if b.None? {
        if i + 1 < |body| {
          BadPair(body, i);
        }
        return None;
      }
      BytesNext(body, i);
      vt := vt + [b.value];
      i := i + 2;
    }
    assert body[..i] == body;
    return Some(vt);
  }

  method FillBuffer(strValue: string, byteSwap: bool, wordSwap: bool, byteCount: nat, data: array<Byte>)
    returns (status: Filling)
    requires byteCount <= data.Length
    modifies data
    ensures
      var (outcome, v) := WriteData(strValue, byteSwap, wordSwap, byteCount);
      status == outcome && (outcome == Stored ==> data[..byteCount] == v)
    ensures data[byteCount..] == old(data[byteCount..])
  {
    var value := strValue;
    if byteSwap || wordSwap {
      var vt := ParseBytes(strValue);
      if vt.None? {
        return ParsingException;
      }
      var swapped := SwapConversion(vt.value, !byteSwap, wordSwap);
      if swapped.None? {
        return ParsingException;
      }
      value := swapped.value;
    }
    var r := Hex2Bin(value, byteCount, data);
    return if r == -1 then InvalidInput else Stored;
  }

  lemma HexIsValue(v: seq<Byte>)
    ensures Body(Hex(v)) == Digits(v) && IsValue(Hex(v)) && Bytes(Body(Hex(v))) == v
  {
    assert Hex(v)[2..] == Digits(v);
    BytesOfDigits(v);
  }

  /** Exactly the values of the expected length are stored, empty ones only without swapping. */
  lemma WriteOutcome(strValue: string, byteSwap: bool, wordSwap: bool, count: nat)
    ensures
      var swaps := byteSwap || wordSwap;
      var (outcome, v) := WriteData(strValue, byteSwap, wordSwap, count);
      && (outcome == Stored <==> IsValue(strValue) && |Body(strValue)| / 2 == count && (swaps ==> count > 0))
      && (outcome == Stored ==> v == Reordered(Bytes(Body(strValue)), byteSwap, wordSwap))
      && (outcome == ParsingException <==> swaps && (!IsValue(strValue) || Body(strValue) == []))
  {
    if IsValue(strValue) {
      ReadUndoesWrite(Bytes(Body(strValue)), byteSwap, wordSwap);
      HexIsValue(Reordered(Bytes(Body(strValue)), !byteSwap, wordSwap));
    }
  }

  /** The buffer of a written value, formatted as a read is, shows the same digits. */
  lemma WrittenReadsBack(strValue: string, byteSwap: bool, wordSwap: bool)
    requires IsValue(strValue) && Body(strValue) != []
    ensures
      var (outcome, v) := WriteData(strValue, byteSwap, wordSwap, |Body(strValue)| / 2);
      outcome == Stored && Hex(Reordered(v, byteSwap, wordSwap)) == "0x" + Upper(Body(strValue))
  {
    var bytes := Bytes(Body(strValue));
    WriteOutcome(strValue, byteSwap, wordSwap, |bytes|);
    ReadUndoesWrite(bytes, byteSwap, wordSwap);
    DigitsOfBytes(Body(strValue));
  }

  /** A prefix 0x or 0X changes nothing, and no prefix neither. */
  lemma PrefixDoesNotMatter(digits: string, byteSwap: bool, wordSwap: bool, count: nat)
    requires IsHex(digits)
    ensures WriteData("0x" + digits, byteSwap, wordSwap, count) == WriteData(digits, byteSwap, wordSwap, count)
    ensures WriteData("0X" + digits, byteSwap, wordSwap, count) == WriteData(digits, byteSwap, wordSwap, count)
  {
    assert ("0x" + digits)[2..] == digits && ("0X" + digits)[2..] == digits;
    assert Body("0x" + digits) == digits && Body("0X" + digits) == digits;
    assert Body(digits) == digits by {
      if HasPrefix(digits) {
        assert Char2Int(digits[1]).Some?;
      }
    }
    WriteOutcome("0x" + digits, byteSwap, wordSwap, count);
    WriteOutcome("0X" + digits, byteSwap, wordSwap, count);
    WriteOutcome(digits, byteSwap, wordSwap, count);
  }

  /** The buffer of a four-byte value, in full, for the four settings. */
  lemma FourBytesStored(a: Byte, b: Byte, c: Byte, d: Byte)
    ensures WriteData(Hex([a, b, c, d]), false, false, 4) == (Stored, [b, a, d, c])
    ensures WriteData(Hex([a, b, c, d]), true, false, 4) == (Stored, [a, b, c, d])
    ensures WriteData(Hex([a, b, c, d]), false, true, 4) == (Stored, [d, c, b, a])
    ensures WriteData(Hex([a, b, c, d]), true, true, 4) == (Stored, [c, d, a, b])
  {
    HexIsValue([a, b, c, d]);
    SwapFour(a, b, c, d);
    SwapFour(c, d, a, b);
    FourBytesWritten(a, b, c, d, false, false);
    FourBytesWritten(a, b, c, d, true, false);
    FourBytesWritten(a, b, c, d, false, true);
    FourBytesWritten(a, b, c, d, true, true);
  }

  lemma FourBytesWritten(a: Byte, b: Byte, c: Byte, d: Byte, byteSwap: bool, wordSwap: bool)
    ensures WriteData(Hex([a, b, c, d]), byteSwap, wordSwap, 4) == (Stored, Reordered([a, b, c, d], byteSwap, wordSwap))
  {
    HexIsValue([a, b, c, d]);
    WriteOutcome(Hex([a, b, c, d]), byteSwap, wordSwap, 4);
  }
}
