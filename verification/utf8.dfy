/** How a move name reaches `playerMove` (chess.cpp:671-676): the Python
    binding hands over the string's UTF-8 bytes, the source counts them with
    `size()` and reads each one as a signed `char`, -128 .. 127. A name of
    ASCII characters is its own byte string; every other character becomes
    two to four bytes, all of them negative once read as `char`. */
module Utf8 {

  /** Every character is ASCII. */
  predicate Ascii(s: string) {
    forall i :: 0 <= i < |s| ==> s[i] as int < 128
  }

  /** A byte read as a signed `char`. */
  function Signed(v: int): (c: int)
    requires 0 <= v < 256
    ensures -128 <= c < 128
    ensures c < 0 <==> v >= 128
    ensures v < 128 ==> c == v
  {
    if v >= 128 then v - 256 else v
  }

  /** Each byte is a signed `char`; a negative byte is never alone: its left
      or right neighbour is negative as well. */
  ghost predicate Paired(bs: seq<int>) {
    forall i :: 0 <= i < |bs| ==> PairedAt(bs, i)
  }

  ghost predicate PairedAt(bs: seq<int>, i: int)
    requires 0 <= i < |bs|
  {
    && -128 <= bs[i] < 128
    && (bs[i] < 0 ==> (0 < i && bs[i - 1] < 0) || (i + 1 < |bs| && bs[i + 1] < 0))
  }

  /** The UTF-8 encoding of one character, as signed chars: one byte below
      0x80, else a lead byte and one to three continuation bytes. */
  function CharBytes(ch: char): (bs: seq<int>)
    ensures 1 <= |bs| <= 4
    ensures ch as int < 128 ==> bs == [ch as int]
    ensures ch as int >= 128 ==> |bs| >= 2 && forall i :: 0 <= i < |bs| ==> -128 <= bs[i] < 0
  {
    var n := ch as int;
    if n < 0x80 then [n]
    else if n < 0x800 then [Signed(0xC0 + n / 0x40), Signed(0x80 + n % 0x40)]
    else if n < 0x1_0000 then
      [Signed(0xE0 + n / 0x1000), Signed(0x80 + n / 0x40 % 0x40), Signed(0x80 + n % 0x40)]
    else
      [Signed(0xF0 + n / 0x4_0000), Signed(0x80 + n / 0x1000 % 0x40),
       Signed(0x80 + n / 0x40 % 0x40), Signed(0x80 + n % 0x40)]
  }

  /** The bytes the source receives for `s`. */
  function Encode(s: string): (bs: seq<int>)
    ensures |bs| >= |s|
    ensures Ascii(s) ==> |bs| == |s| && forall i :: 0 <= i < |s| ==> bs[i] == s[i] as int
    ensures !Ascii(s) ==> exists i :: 0 <= i < |bs| && bs[i] < 0
    ensures Paired(bs)
    decreases |s|
  {
    if s == [] then []
    else
      var head, tail := CharBytes(s[0]), Encode(s[1..]);
      CharPaired(s[0]);
      PairedConcat(head, tail);
      AsciiCons(s);
      assert s[0] as int >= 128 ==> head[0] < 0;
      NegativeKept(head, tail);
      head + tail
  }

  /** A string is ASCII exactly when its first character and the rest are. */
  lemma AsciiCons(s: string)
    requires s != []
    ensures Ascii(s) <==> s[0] as int < 128 && Ascii(s[1..])
  {
    if s[0] as int < 128 && Ascii(s[1..]) {
      forall i | 0 <= i < |s|
        ensures s[i] as int < 128
      {
        if i > 0 {
          assert s[i] == s[1..][i - 1];
        }
      }
    }
  }

  /** Behind an ASCII prefix, a string is ASCII exactly when its tail is. */
  lemma AsciiAppend(p: string, t: string)
    requires Ascii(p)
    ensures Ascii(p + t) <==> Ascii(t)
  {
    if Ascii(t) {
      forall i | 0 <= i < |p + t|
        ensures (p + t)[i] as int < 128
      {
        if i >= |p| {
          assert (p + t)[i] == t[i - |p|];
        }
      }
    }
    if Ascii(p + t) {
      forall i | 0 <= i < |t|
        ensures t[i] as int < 128
      {
        assert (p + t)[|p| + i] == t[i];
      }
    }
  }

  /** A negative byte of either part is a negative byte of the whole. */
  lemma NegativeKept(head: seq<int>, tail: seq<int>)
    ensures (exists i :: 0 <= i < |head| && head[i] < 0) || (exists i :: 0 <= i < |tail| && tail[i] < 0) ==>
      exists i :: 0 <= i < |head + tail| && (head + tail)[i] < 0
  {
    if i :| 0 <= i < |head| && head[i] < 0 {
      assert (head + tail)[i] == head[i];
    } else if i :| 0 <= i < |tail| && tail[i] < 0 {
      assert (head + tail)[|head| + i] == tail[i];
    }
  }

  lemma CharPaired(ch: char)
    ensures Paired(CharBytes(ch))
  {
  }

  /** Two byte strings with no lone negative byte join into one. */
  lemma PairedConcat(a: seq<int>, b: seq<int>)
    requires Paired(a) && Paired(b)
    ensures Paired(a + b)
  {
    var ab := a + b;
    forall i | 0 <= i < |ab|
      ensures PairedAt(ab, i)
    {
      if i < |a| {
        assert PairedAt(a, i);
        assert ab[i] == a[i];
        if 0 < i {
          assert ab[i - 1] == a[i - 1];
        }
        if i + 1 < |a| {
          assert ab[i + 1] == a[i + 1];
        }
      } else {
        var j := i - |a|;
        assert PairedAt(b, j);
        assert ab[i] == b[j];
        if 0 < j {
          assert ab[i - 1] == b[j - 1];
        }
        if j + 1 < |b| {
          assert ab[i + 1] == b[j + 1];
        }
      }
    }
  }

  /** Four bytes whose second and fourth are not negative come from four
      ASCII characters: any other character would put a negative byte on the
      second or the fourth place. */
  lemma FourBytes(s: string)
    requires |Encode(s)| == 4
    requires Encode(s)[1] >= 0 && Encode(s)[3] >= 0
    ensures Ascii(s) && |s| == 4
  {
    var bs := Encode(s);
    assert PairedAt(bs, 0) && PairedAt(bs, 2);
    assert bs[0] >= 0 && bs[2] >= 0;
  }
}
