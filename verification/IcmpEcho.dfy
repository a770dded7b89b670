/**
 * The echo-reply path of icmp_input: verify the Internet checksum, turn the request into a reply in place,
 * and patch the checksum instead of computing it again.
 */
module IcmpEcho {
  import opened Basics

  const M := 0xffff
  const W := 0x1_0000
  const ICMP_ER := 0
  const ICMP_ECHO := 8
  const ECHO_HDR := 8

  // ----- the Internet checksum -----

  /** One's-complement addition of 16-bit words: the carry comes back in at the bottom. */
  function Add1(a: nat, b: nat): (c: nat)
    requires a < W && b < W
    ensures c < W
  {
    if a + b >= W then a + b - M else a + b
  }

  /** The word made of two bytes, in the byte order of the host. */
  function Word(x: byte, y: byte, big: bool): (w: nat)
    ensures w < W
  {
    if big then (x as int) * 0x100 + y else (x as int) + (y as int) * 0x100
  }

  /** One's-complement sum of the packet's words; an odd last byte is padded with zero. */
  function OnesSum(p: seq<byte>, big: bool): (s: nat)
    ensures s < W
  {
    if p == [] then 0
    else if |p| == 1 then Word(p[0], 0, big)
    else Add1(Word(p[0], p[1], big), OnesSum(p[2..], big))
  }

  /** inet_chksum of a packet is zero. */
  predicate Verifies(p: seq<byte>, big: bool) {
    M - OnesSum(p, big) == 0
  }

  // ----- the reply -----

  /** PP_HTONS. */
  function Htons(x: nat, big: bool): nat
    requires x < W
  {
    if big then x else x % 0x100 * 0x100 + x / 0x100
  }

  /** What the two-branch adjustment of the checksum field computes, in 16 bits. */
  function Patched(c: nat, big: bool): (d: nat)
    requires c < W
    ensures d < W
  {
    if c >= Htons(M - ICMP_ECHO * 0x100, big) then (c + Htons(ICMP_ECHO * 0x100, big) + 1) % W
    else (c + Htons(ICMP_ECHO * 0x100, big)) % W
  }

  function Bytes(w: nat, big: bool): (byte, byte)
    requires w < W
  {
    if big then (w / 0x100, w % 0x100) else (w % 0x100, w / 0x100)
  }

  /** The reply: type 0, the code kept, the checksum patched, the rest kept. */
  function Reply(p: seq<byte>, big: bool): (r: seq<byte>)
    requires |p| >= 4
    ensures |r| == |p|
  {
    var c := Bytes(Patched(Word(p[2], p[3], big), big), big);
    [ICMP_ER, p[1], c.0, c.1] + p[4..]
  }

  /** The checksum written from scratch over the message with its checksum field zeroed. */
  function Recomputed(p: seq<byte>, big: bool): seq<byte>
    requires |p| >= 4
  {
    var c := Bytes(M - OnesSum([p[0], p[1], 0, 0] + p[4..], big), big);
    [p[0], p[1], c.0, c.1] + p[4..]
  }

  /** All words but type, code and checksum are zero, and so is the code. */
  predicate Blank(p: seq<byte>)
    requires |p| >= 4
  {
    p[1] == 0 && forall i :: 4 <= i < |p| ==> p[i] == 0
  }

  // ----- proofs -----

  lemma {:induction false} SumZero(p: seq<byte>, big: bool)
    ensures OnesSum(p, big) == 0 <==> forall i :: 0 <= i < |p| ==> p[i] == 0
  {
    if |p| >= 2 {
      SumZero(p[2..], big);
      assert (forall i :: 0 <= i < |p| ==> p[i] == 0)
        <==> p[0] == 0 && p[1] == 0 && forall i :: 0 <= i < |p[2..]| ==> p[2..][i] == 0 by {
        if p[0] == 0 && p[1] == 0 && forall i :: 0 <= i < |p[2..]| ==> p[2..][i] == 0 {
          forall i | 2 <= i < |p| ensures p[i] == 0 { assert p[i] == p[2..][i - 2]; }
        }
      }
    }
  }

  /** The sum of the first four bytes and the rest. */
  lemma Head(a: byte, b: byte, c: byte, d: byte, rest: seq<byte>, big: bool)
    ensures OnesSum([a, b, c, d] + rest, big)
         == Add1(Word(a, b, big), Add1(Word(c, d, big), OnesSum(rest, big)))
  {
    var p := [a, b, c, d] + rest;
    assert p[2..] == [c, d] + rest && p[2..][2..] == rest;
  }

  lemma BytesWord(w: nat, big: bool)
    requires w < W
    ensures Word(Bytes(w, big).0, Bytes(w, big).1, big) == w
  {
  }

  /** The checksum adjustment is end-around addition of the 8 that the type lost, with 0xffff sent as 0. */
  lemma PatchedIs(c: nat, big: bool)
    requires c < W
    ensures var add := if big then 0x800 else 8;
      Patched(c, big) == if c + add >= M then c + add - M else c + add
  {
    assert Htons(ICMP_ECHO * 0x100, big) == if big then 0x800 else 8;
    assert Htons(M - ICMP_ECHO * 0x100, big) == if big then 0xf7ff else 0xfff7;
  }

  /**
   * The arithmetic core: t is the type/code word of the reply, t + add that of the request, c the old and
   * d the new checksum, s the sum of everything after it.
   */
  lemma PatchArithmetic(t: nat, add: nat, c: nat, d: nat, s: nat)
    requires 0 < add < M && t + add < W && c < W && s < W
    requires d == if c + add >= M then c + add - M else c + add
    ensures d < W && d != M
    ensures Add1(t, Add1(d, s)) == M <==> Add1(t + add, Add1(c, s)) == M && !(t == 0 && s == 0)
    ensures Add1(t + add, Add1(c, s)) == M ==> (d == M - Add1(t, s) <==> !(t == 0 && s == 0))
  {
  }

  lemma Split(p: seq<byte>)
    requires |p| >= 4
    ensures p == [p[0], p[1], p[2], p[3]] + p[4..]
  {
  }

  /**
   * For an echo request of any length: the patched reply verifies exactly if the request did and it is
   * not the blank one.  A corrupted request is never turned into a valid reply.
   */
  lemma ReplyVerifiesExactly(p: seq<byte>, big: bool)
    requires |p| >= 4 && p[0] == ICMP_ECHO
    ensures Verifies(Reply(p, big), big) <==> Verifies(p, big) && !Blank(p)
  {
    var c, s := Word(p[2], p[3], big), OnesSum(p[4..], big);
    var d := Bytes(Patched(c, big), big);
    Split(p);
    Head(p[0], p[1], p[2], p[3], p[4..], big);
    Head(ICMP_ER, p[1], d.0, d.1, p[4..], big);
    BytesWord(Patched(c, big), big);
    BlankSum(p, big);
    PatchedIs(c, big);
    PatchArithmetic(Word(ICMP_ER, p[1], big), if big then 0x800 else 8, c, Patched(c, big), s);
  }

  /** The reply is an echo reply of the same length that differs from the request in type and checksum only. */
  lemma OnlyTypeAndChecksumChange(p: seq<byte>, big: bool)
    requires |p| >= 4
    ensures |Reply(p, big)| == |p| && Reply(p, big)[0] == 0 && Reply(p, big)[1] == p[1]
    ensures forall i :: 4 <= i < |p| ==> Reply(p, big)[i] == p[i]
  {
    assert Reply(p, big)[4..] == p[4..];
  }

  /** There is a blank request that verifies, in either byte order; its reply does not. */
  lemma BlankIsReachable(p: seq<byte>, big: bool)
    requires p == [ICMP_ECHO, 0, 0xf7, 0xff, 0, 0, 0, 0]
    ensures Verifies(p, big) && Blank(p) && !Verifies(Reply(p, big), big)
  {
    assert p == [ICMP_ECHO, 0, 0xf7, 0xff] + [0, 0, 0, 0];
    Head(ICMP_ECHO, 0, 0xf7, 0xff, [0, 0, 0, 0], big);
    SumZero([0, 0, 0, 0], big);
    ReplyVerifiesExactly(p, big);
  }

  lemma BlankSum(p: seq<byte>, big: bool)
    requires |p| >= 4
    ensures Blank(p) <==> p[1] == 0 && OnesSum(p[4..], big) == 0
  {
    SumZero(p[4..], big);
    if p[1] == 0 && OnesSum(p[4..], big) == 0 {
      forall i | 4 <= i < |p| ensures p[i] == 0 { assert p[i] == p[4..][i - 4]; }
    }
  }

  /** The reply's sum with its checksum field zeroed. */
  lemma ZeroedSum(p: seq<byte>, big: bool)
    requires |p| >= 4
    ensures OnesSum([ICMP_ER, p[1], 0, 0] + p[4..], big) == Add1(Word(ICMP_ER, p[1], big), OnesSum(p[4..], big))
  {
    Head(ICMP_ER, p[1], 0, 0, p[4..], big);
  }

  /** For a valid request the patched checksum is the complement of the reply's sum, unless it is blank. */
  lemma PatchValue(p: seq<byte>, big: bool)
    requires |p| >= 4 && p[0] == ICMP_ECHO && Verifies(p, big)
    ensures Patched(Word(p[2], p[3], big), big) == M - Add1(Word(ICMP_ER, p[1], big), OnesSum(p[4..], big))
       <==> !Blank(p)
  {
    var c, s := Word(p[2], p[3], big), OnesSum(p[4..], big);
    Split(p);
    Head(p[0], p[1], p[2], p[3], p[4..], big);
    BlankSum(p, big);
    PatchedIs(c, big);
    PatchArithmetic(Word(ICMP_ER, p[1], big), if big then 0x800 else 8, c, Patched(c, big), s);
  }

  /** ... and in just these cases the patch gives what computing the checksum from scratch would. */
  lemma PatchIsRecomputation(p: seq<byte>, big: bool)
    requires |p| >= 4 && p[0] == ICMP_ECHO && Verifies(p, big)
    ensures Reply(p, big) == Recomputed(Reply(p, big), big) <==> !Blank(p)
  {
    var r := Reply(p, big);
    PatchValue(p, big);
    ZeroedSum(p, big);
    assert r[4..] == p[4..] && r[0] == ICMP_ER && r[1] == p[1];
    SameField(r, Patched(Word(p[2], p[3], big), big), M - Add1(Word(ICMP_ER, p[1], big), OnesSum(p[4..], big)), big);
  }

  /** Two messages that differ at most in the checksum field are equal exactly if its values are. */
  lemma SameField(r: seq<byte>, d: nat, t: nat, big: bool)
    requires |r| >= 4 && d < W && t < W && r[2] == Bytes(d, big).0 && r[3] == Bytes(d, big).1
    ensures r == [r[0], r[1], Bytes(t, big).0, Bytes(t, big).1] + r[4..] <==> d == t
  {
    BytesWord(d, big);
    BytesWord(t, big);
    var q := [r[0], r[1], Bytes(t, big).0, Bytes(t, big).1] + r[4..];
    assert q[2] == Bytes(t, big).0 && q[3] == Bytes(t, big).1;
  }

  /** Little- and big-endian hosts send the same reply. */
  lemma HostOrderDoesNotMatter(p: seq<byte>)
    requires |p| >= 4
    ensures Reply(p, true) == Reply(p, false)
  {
    FieldBytes(p[2], p[3], true);
    FieldBytes(p[2], p[3], false);
  }

  /** The checksum field of the reply, byte by byte. */
  function NewField(x: byte, y: byte): (byte, byte) {
    if x < 0xf7 || (x == 0xf7 && y < 0xff) then (x + 8, y)
    else if y < 0xff then (x - 0xf8, y + 1)
    else (x - 0xf7, 0)
  }

  lemma FieldBytes(x: byte, y: byte, big: bool)
    ensures Bytes(Patched(Word(x, y, big), big), big) == NewField(x, y)
  {
    PatchedIs(Word(x, y, big), big);
    var n := NewField(x, y);
    assert Patched(Word(x, y, big), big) == Word(n.0, n.1, big);
    WordBytes(n.0, n.1, big);
  }

  lemma WordBytes(x: byte, y: byte, big: bool)
    ensures Bytes(Word(x, y, big), big) == (x, y)
  {
  }

  // ----- folding -----

  /** The plain sum of the words, as a wide accumulator holds it. */
  function PlainSum(p: seq<byte>, big: bool): nat {
    if p == [] then 0
    else if |p| == 1 then Word(p[0], 0, big)
    else Word(p[0], p[1], big) + PlainSum(p[2..], big)
  }

  /** Add the carries back in until none is left. */
  function Fold(x: nat): (f: nat)
    ensures f < W
  {
    if x < W then x else Fold(x % W + x / W)
  }

  /** The representative of x modulo 65535 in 1..65535, except that 0 stays 0. */
  function Canon(x: nat): (c: nat)
    ensures c < W
  {
    if x == 0 then 0 else (x - 1) % M + 1
  }

  lemma CanonIs(x: nat, q: nat, r: nat)
    requires x == q * M + r && 0 < r <= M
    ensures Canon(x) == r
  {
    assert x - 1 == q * M + (r - 1);
  }

  lemma {:induction false} FoldIsCanon(x: nat)
    ensures Fold(x) == Canon(x)
  {
    if x >= W {
      var hi, lo := x / W, x % W;
      FoldIsCanon(lo + hi);
      var q, r := (lo + hi - 1) / M, (lo + hi - 1) % M + 1;
      assert x == hi * M + (lo + hi);
      assert lo + hi == q * M + r;
      assert x == (hi + q) * M + r;
      CanonIs(x, hi + q, r);
    } else if x > 0 {
      if x == M { CanonIs(x, 0, M); } else { CanonIs(x, 0, x); }
    }
  }

  lemma CanonAdd(a: nat, b: nat)
    requires a < W
    ensures Add1(a, Canon(b)) == Canon(a + b)
  {
    if b == 0 {
      if a > 0 { CanonIs(a, 0, a); }
    } else {
      var q, r := (b - 1) / M, (b - 1) % M + 1;
      assert b == q * M + r;
      if a + r >= W {
        assert a + b == (q + 1) * M + (a + r - M);
        CanonIs(a + b, q + 1, a + r - M);
      } else {
        assert a + b == q * M + (a + r);
        CanonIs(a + b, q, a + r);
      }
    }
  }

  /** End-around addition word by word is the plain sum folded at the end, which is the sum modulo 65535. */
  lemma {:induction false} OnesSumIsFoldedSum(p: seq<byte>, big: bool)
    ensures OnesSum(p, big) == Fold(PlainSum(p, big)) == Canon(PlainSum(p, big))
  {
    FoldIsCanon(PlainSum(p, big));
    if |p| >= 2 {
      OnesSumIsFoldedSum(p[2..], big);
      CanonAdd(Word(p[0], p[1], big), PlainSum(p[2..], big));
    } else if |p| == 1 {
      CanonAdd(Word(p[0], 0, big), 0);
    }
  }

  // ----- in place -----

  datatype Outcome = LengthError | ChecksumError | Ignored | Replied

  /** inet_chksum_pbuf: add the words up, fold, complement. */
  method Checksum(p: array<byte>, big: bool) returns (c: nat)
    ensures c == M - OnesSum(p[..], big)
  {
    var acc, i := 0, 0;
    while i + 1 < p.Length
      invariant 0 <= i <= p.Length && i % 2 == 0
      invariant acc + PlainSum(p[i..], big) == PlainSum(p[..], big)
    {
      acc := acc + Word(p[i], p[i + 1], big);
      assert p[i..][2..] == p[i + 2..];
      i := i + 2;
    }
    if i < p.Length {
      acc := acc + Word(p[i], 0, big);
    }
    OnesSumIsFoldedSum(p[..], big);
    ghost var total := acc;
    while acc >= W
      invariant acc >= 0 && Fold(acc) == Fold(total)
      decreases acc
    {
      acc := acc % W + acc / W;
    }
    c := M - acc;
  }

  /** icmp_input from the type switch to the point where the reply is handed to the IP layer. */
  method IcmpInput(p: array<byte>, big: bool, unicast: bool) returns (o: Outcome)
    modifies p
    ensures o == LengthError <==> old(p.Length < 4 || (p[0] == ICMP_ECHO && unicast && p.Length < ECHO_HDR))
    ensures o == ChecksumError <==>
      old(p.Length >= ECHO_HDR && p[0] == ICMP_ECHO && unicast && !Verifies(p[..], big))
    ensures o == Replied <==> old(p.Length >= ECHO_HDR && p[0] == ICMP_ECHO && unicast && Verifies(p[..], big))
    ensures o != Replied ==> p[..] == old(p[..])
    ensures o == Replied ==> p[..] == Reply(old(p[..]), big)
    // only type and checksum are written
    ensures o == Replied ==> p[0] == 0 && p[1] == old(p[1])
    ensures o == Replied ==> forall i :: 4 <= i < p.Length ==> p[i] == old(p[i])
    // a reply that leaves is valid, unless it answers the blank request
    ensures o == Replied ==> (Verifies(p[..], big) <==> !Blank(old(p[..])))
  {
    if p.Length < 4 { return LengthError; }
    if p[0] != ICMP_ECHO { return Ignored; }
    if !unicast { return Ignored; }
    if p.Length < ECHO_HDR { return LengthError; }
    var sum := Checksum(p, big);
    if sum != 0 { return ChecksumError; }
    OnlyTypeAndChecksumChange(p[..], big);
    ReplyVerifiesExactly(p[..], big);
    p[0] := ICMP_ER;
    var c := Word(p[2], p[3], big);
    var d := if c >= Htons(M - ICMP_ECHO * 0x100, big) then (c + Htons(ICMP_ECHO * 0x100, big) + 1) % W
             else (c + Htons(ICMP_ECHO * 0x100, big)) % W;
    p[2], p[3] := Bytes(d, big).0, Bytes(d, big).1;
    o := Replied;
  }
}
