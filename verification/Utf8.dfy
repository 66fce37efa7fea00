/** The structural UTF-8 scan of bench/kernels/d1_utf8_validate, against the
    encoder of section 3 of RFC 3629. */
module Utf8 {
  import opened Wrappers

  type byte = x: int | 0 <= x < 256

  // -------------------------------------------------- groups of a buffer --

  /** How many continuation bytes follow this lead byte; None when it leads nothing. */
  function Follow(b: byte): Option<nat> {
    if b < 128 then Some(0)
    else if b < 194 then None
    else if b < 224 then Some(1)
    else if b < 240 then Some(2)
    else if b < 245 then Some(3)
    else None
  }

  predicate Continues(b: byte) { 128 <= b <= 191 }

  /** A lead byte and the continuation bytes it announces. */
  predicate IsGroup(g: seq<byte>) {
    g != [] && Follow(g[0]) == Some(|g| - 1) && forall k :: 1 <= k < |g| ==> Continues(g[k])
  }

  predicate AllGroups(gs: seq<seq<byte>>) {
    forall k :: 0 <= k < |gs| ==> IsGroup(gs[k])
  }

  function Flatten<T>(gs: seq<seq<T>>): seq<T> {
    if gs == [] then [] else gs[0] + Flatten(gs[1..])
  }

  // -------------------------------------------------------- the machine --

  /** What the scan returns on `p` when `want` continuation bytes are still due. */
  function Run(want: nat, p: seq<byte>): (r: int)
    ensures r >= -1
    decreases p
  {
    if p == [] then (if want == 0 then 0 else -1)
    else if want > 0 then (if Continues(p[0]) then Run(want - 1, p[1..]) else -1)
    else match Follow(p[0])
      case None => -1
      case Some(n) => var r := Run(n, p[1..]); if r < 0 then -1 else r + 1
  }

  /** `chars` so far and the rest of the scan, as one result. */
  function Sum(chars: nat, rest: int): int {
    if rest < 0 then -1 else chars + rest
  }

  /** The C lane: a pointer and a length. */
  method ValidateC(p: array<byte>, len: nat) returns (r: int)
    requires len <= p.Length
    ensures r == Run(0, p[..len])
  {
    var want, chars := 0, 0;
    for i := 0 to len
      invariant 0 <= want && 0 <= chars
      invariant Run(0, p[..len]) == Sum(chars, Run(want, p[i..len]))
    {
      var b := p[i];
      assert p[i..len][1..] == p[i + 1..len];
      if want > 0 {
        if b < 128 || b > 191 {
          return -1;
        }
        want := want - 1;
      } else if b < 128 {
        chars := chars + 1;
      } else if b < 194 {
        return -1;
      } else if b < 224 {
        want, chars := 1, chars + 1;
      } else if b < 240 {
        want, chars := 2, chars + 1;
      } else if b < 245 {
        want, chars := 3, chars + 1;
      } else {
        return -1;
      }
    }
    r := if want == 0 then chars else -1;
  }

  /** The Rust lane: the same scan over a slice. */
  method ValidateRust(p: seq<byte>) returns (r: int)
    ensures r == Run(0, p)
  {
    var want, chars := 0, 0;
    for i := 0 to |p|
      invariant 0 <= want && 0 <= chars
      invariant Run(0, p) == Sum(chars, Run(want, p[i..]))
    {
      var b := p[i];
      assert p[i..][1..] == p[i + 1..];
      if want > 0 {
        if b < 128 || b > 191 {
          return -1;
        }
        want := want - 1;
      } else if b < 128 {
        chars := chars + 1;
      } else if b < 194 {
        return -1;
      } else if b < 224 {
        want, chars := 1, chars + 1;
      } else if b < 240 {
        want, chars := 2, chars + 1;
      } else if b < 245 {
        want, chars := 3, chars + 1;
      } else {
        return -1;
      }
    }
    assert p[|p|..] == [];
    r := if want == 0 then chars else -1;
  }

  // ------------------------------------------ accepted means it splits --

  lemma {:induction false} RunContinuation(tail: seq<byte>, rest: seq<byte>)
    requires forall k :: 0 <= k < |tail| ==> Continues(tail[k])
    ensures Run(|tail|, tail + rest) == Run(0, rest)
  {
    if tail == [] {
      assert tail + rest == rest;
    } else {
      assert (tail + rest)[1..] == tail[1..] + rest;
      RunContinuation(tail[1..], rest);
    }
  }

  lemma RunGroup(g: seq<byte>, rest: seq<byte>)
    requires IsGroup(g)
    ensures Run(0, g + rest) == Sum(1, Run(0, rest))
  {
    assert (g + rest)[1..] == g[1..] + rest;
    RunContinuation(g[1..], rest);
  }

  /** A buffer of groups is accepted, and each group is one character. */
  lemma {:induction false} GroupsAreAccepted(gs: seq<seq<byte>>)
    requires AllGroups(gs)
    ensures Run(0, Flatten(gs)) == |gs|
  {
    if gs != [] {
      GroupsAreAccepted(gs[1..]);
      RunGroup(gs[0], Flatten(gs[1..]));
    }
  }

  lemma {:induction false} RunSplitsTail(want: nat, p: seq<byte>)
    requires Run(want, p) >= 0
    ensures want <= |p| && (forall k :: 0 <= k < want ==> Continues(p[k]))
    ensures Run(want, p) == Run(0, p[want..])
  {
    if want > 0 {
      RunSplitsTail(want - 1, p[1..]);
      assert forall k :: 1 <= k < want ==> p[k] == p[1..][k - 1];
      assert p[1..][want - 1..] == p[want..];
    } else {
      assert p[want..] == p;
    }
  }

  /** An accepted buffer is a buffer of groups. */
  lemma {:induction false} AcceptedIsGroups(p: seq<byte>) returns (gs: seq<seq<byte>>)
    requires Run(0, p) >= 0
    ensures AllGroups(gs) && Flatten(gs) == p && Run(0, p) == |gs|
    decreases |p|
  {
    if p == [] {
      gs := [];
    } else {
      var n := Follow(p[0]).value;
      RunSplitsTail(n, p[1..]);
      assert p[1..][n..] == p[n + 1..];
      var rest := AcceptedIsGroups(p[n + 1..]);
      var g := p[..n + 1];
      assert forall k :: 1 <= k < |g| ==> g[k] == p[1..][k - 1];
      gs := [g] + rest;
    }
  }

  /** The split into groups is unique. */
  lemma {:induction false} GroupsAreUnique(gs: seq<seq<byte>>, hs: seq<seq<byte>>)
    requires AllGroups(gs) && AllGroups(hs) && Flatten(gs) == Flatten(hs)
    ensures gs == hs
  {
    assert gs != [] ==> gs[0] != [] && Flatten(gs) != [];
    assert hs != [] ==> hs[0] != [] && Flatten(hs) != [];
    if gs != [] && hs != [] {
      var p, g, h := Flatten(gs), gs[0], hs[0];
      assert g[0] == p[0] == h[0];
      assert g == p[..|g|] && h == p[..|h|];
      assert Flatten(gs[1..]) == p[|g|..] && Flatten(hs[1..]) == p[|h|..];
      GroupsAreUnique(gs[1..], hs[1..]);
      assert gs == [g] + gs[1..] && hs == [h] + hs[1..];
    }
  }

  /** The result is non-negative iff the buffer splits into groups, and is then their number. */
  lemma AcceptedIffGroups(p: seq<byte>, r: int)
    ensures r >= 0 && Run(0, p) == r <==> 
            exists gs: seq<seq<byte>> :: AllGroups(gs) && Flatten(gs) == p && |gs| == r
  {
    if Run(0, p) >= 0 {
      var gs := AcceptedIsGroups(p);
    }
    forall gs: seq<seq<byte>> | AllGroups(gs) && Flatten(gs) == p ensures Run(0, p) == |gs| {
      GroupsAreAccepted(gs);
    }
  }

  /** Counts add over the concatenation of accepted buffers. */
  lemma RunAdds(p: seq<byte>, q: seq<byte>)
    requires Run(0, p) >= 0
    ensures Run(0, p + q) == Sum(Run(0, p), Run(0, q))
  {
    var gs := AcceptedIsGroups(p);
    RunAfterGroups(gs, q);
  }

  lemma {:induction false} RunAfterGroups(gs: seq<seq<byte>>, q: seq<byte>)
    requires AllGroups(gs)
    ensures Run(0, Flatten(gs) + q) == Sum(|gs|, Run(0, q))
  {
    if gs == [] {
      assert Flatten(gs) + q == q;
    } else {
      RunAfterGroups(gs[1..], q);
      RunGroup(gs[0], Flatten(gs[1..]) + q);
      assert Flatten(gs) + q == gs[0] + (Flatten(gs[1..]) + q);
    }
  }

  function Repeat(chunk: seq<byte>, reps: nat): seq<byte> {
    if reps == 0 then [] else chunk + Repeat(chunk, reps - 1)
  }

  /** The kernel's buffer: a chunk repeated has the chunk's count, times the repetitions. */
  lemma {:induction false} RepeatedChunk(chunk: seq<byte>, reps: nat)
    requires Run(0, chunk) >= 0
    ensures Run(0, Repeat(chunk, reps)) == reps * Run(0, chunk)
  {
    if reps > 0 {
      RepeatedChunk(chunk, reps - 1);
      RunAdds(chunk, Repeat(chunk, reps - 1));
      assert reps * Run(0, chunk) == Run(0, chunk) + (reps - 1) * Run(0, chunk);
    }
  }

  // --------------------------------------------------------- RFC 3629 --

  predicate Scalar(c: int) {
    0 <= c <= 0x10_FFFF && !(0xD800 <= c <= 0xDFFF)
  }

  function Encode(c: int): seq<byte>
    requires Scalar(c)
  {
    if c < 0x80 then [c]
    else if c < 0x800 then [0xC0 + c / 64, 0x80 + c % 64]
    else if c < 0x1_0000 then [0xE0 + c / 4_096, 0x80 + c / 64 % 64, 0x80 + c % 64]
    else [0xF0 + c / 262_144, 0x80 + c / 4_096 % 64, 0x80 + c / 64 % 64, 0x80 + c % 64]
  }

  predicate Scalars(s: seq<int>) {
    forall k :: 0 <= k < |s| ==> Scalar(s[k])
  }

  function EncodeEach(s: seq<int>): (gs: seq<seq<byte>>)
    requires Scalars(s)
    ensures |gs| == |s| && forall k :: 0 <= k < |s| ==> gs[k] == Encode(s[k])
  {
    seq(|s|, k requires 0 <= k < |s| => Encode(s[k]))
  }

  /** What the grammar of section 4 of RFC 3629 asks of a group beyond its shape:
      no overlong form, no surrogate, nothing past U+10FFFF. */
  predicate Strict(g: seq<byte>)
    requires IsGroup(g)
  {
    |g| < 2 || ((g[0] == 0xE0 ==> g[1] >= 0xA0) && (g[0] == 0xED ==> g[1] <= 0x9F)
                && (g[0] == 0xF0 ==> g[1] >= 0x90) && (g[0] == 0xF4 ==> g[1] <= 0x8F))
  }

  /** The bits a byte carries below its mark. */
  function Bits(b: byte, mark: int): int { b - mark }

  function Decode(g: seq<byte>): int
    requires IsGroup(g)
  {
    if |g| == 1 then g[0]
    else if |g| == 2 then Bits(g[0], 0xC0) * 64 + Bits(g[1], 0x80)
    else if |g| == 3 then Bits(g[0], 0xE0) * 4_096 + Bits(g[1], 0x80) * 64 + Bits(g[2], 0x80)
    else Bits(g[0], 0xF0) * 262_144 + Bits(g[1], 0x80) * 4_096 + Bits(g[2], 0x80) * 64 + Bits(g[3], 0x80)
  }

  /** A number below 2^24 in four six-bit digits. */
  lemma SixBits(c: int, w: int, x: int, y: int, z: int)
    requires 0 <= w && 0 <= x < 64 && 0 <= y < 64 && 0 <= z < 64
    requires c == w * 262_144 + x * 4_096 + y * 64 + z
    ensures c / 262_144 == w && c / 4_096 == w * 64 + x && c / 64 == w * 4_096 + x * 64 + y
    ensures c / 4_096 % 64 == x && c / 64 % 64 == y && c % 64 == z
  {
    assert c == 64 * (w * 4_096 + x * 64 + y) + z;
    assert c == 4_096 * (w * 64 + x) + (y * 64 + z);
    assert c / 64 == 64 * (w * 64 + x) + y;
    assert c / 4_096 == 64 * w + x;
  }

  lemma EncodeIsStrict(c: int)
    requires Scalar(c)
    ensures IsGroup(Encode(c)) && Strict(Encode(c)) && Decode(Encode(c)) == c
  {
    var w, x, y, z := c / 262_144, c / 4_096 % 64, c / 64 % 64, c % 64;
    assert c / 64 == 64 * (c / 4_096) + y && c / 4_096 == 64 * w + x;
  }

  lemma DecodeIsScalar(g: seq<byte>)
    requires IsGroup(g) && Strict(g)
    ensures Scalar(Decode(g)) && Encode(Decode(g)) == g
  {
    var c := Decode(g);
    if |g| == 3 {
      SixBits(c, 0, Bits(g[0], 0xE0), Bits(g[1], 0x80), Bits(g[2], 0x80));
    } else if |g| == 4 {
      SixBits(c, Bits(g[0], 0xF0), Bits(g[1], 0x80), Bits(g[2], 0x80), Bits(g[3], 0x80));
    }
  }

  /** The encoding of any scalar values is accepted, and counts them. */
  lemma EncodedIsAccepted(s: seq<int>)
    requires Scalars(s)
    ensures Run(0, Flatten(EncodeEach(s))) == |s|
  {
    forall k | 0 <= k < |s| ensures IsGroup(EncodeEach(s)[k]) {
      EncodeIsStrict(s[k]);
    }
    GroupsAreAccepted(EncodeEach(s));
  }

  /** Which accepted buffers are UTF-8: those whose groups are all strict. */
  lemma AcceptedAndStrict(gs: seq<seq<byte>>)
    requires AllGroups(gs)
    ensures (exists s :: Scalars(s) && Flatten(EncodeEach(s)) == Flatten(gs)) <==>
            forall k :: 0 <= k < |gs| ==> Strict(gs[k])
  {
    if forall k :: 0 <= k < |gs| ==> Strict(gs[k]) {
      var s := seq(|gs|, k requires 0 <= k < |gs| => Decode(gs[k]));
      forall k | 0 <= k < |gs| ensures Scalar(s[k]) && Encode(s[k]) == gs[k] {
        DecodeIsScalar(gs[k]);
      }
      assert EncodeEach(s) == gs;
    }
    forall s | Scalars(s) && Flatten(EncodeEach(s)) == Flatten(gs)
      ensures forall k :: 0 <= k < |gs| ==> Strict(gs[k]) {
      forall k | 0 <= k < |s| ensures IsGroup(EncodeEach(s)[k]) && Strict(EncodeEach(s)[k]) {
        EncodeIsStrict(s[k]);
      }
      GroupsAreUnique(EncodeEach(s), gs);
    }
  }

  /** The scan is structural: it accepts an overlong form, which no text encodes to. */
  lemma AcceptsOverlong()
    ensures var p: seq<byte> := [0xE0, 0x80, 0x80];
            Run(0, p) == 1 && forall s :: Scalars(s) ==> Flatten(EncodeEach(s)) != p
  {
    var gs: seq<seq<byte>> := [[0xE0, 0x80, 0x80]];
    assert IsGroup(gs[0]) && !Strict(gs[0]);
    assert Flatten(gs[1..]) == [] && Flatten(gs) == gs[0];
    GroupsAreAccepted(gs);
    AcceptedAndStrict(gs);
  }
}
