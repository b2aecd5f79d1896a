/** `gencode` of signals-nested.cpp and signals-nested-2.cpp, and what running its output does. */
module CodeGen {
  import opened Words
  import opened Machine
  import opened Congruence

  /** The bytes of the two immediates; all the two programs differ in. */
  datatype Template = Template(mov: seq<byte>, add: seq<byte>) {
    predicate Valid() { |mov| == 4 && |add| == 4 }
  }

  const NESTED := Template([0xFF, 0xFF, 0xFF, 0xFE], [0, 0, 0, 1])
  const NESTED2 := Template([0xFE, 0xFF, 0xFF, 0xFF], [1, 0, 0, 0])

  const CODE_SIZE := 4 * 1024 * 1024

  // mov eax, ..; l: add eax, ..; jnz l
  function Block(t: Template): (b: seq<byte>)
    requires t.Valid()
    ensures |b| == 12
  {
    [MOV_EAX] + t.mov + [ADD_EAX] + t.add + [JNZ, 0xF9]
  }

  function Blocks(t: Template, n: nat): (s: seq<byte>)
    requires t.Valid()
    ensures |s| == 12 * n
  {
    if n == 0 then [] else Blocks(t, n - 1) + Block(t)
  }

  // The bytes both programs store.
  lemma BlockBytes()
    ensures Block(NESTED) == [0xB8, 0xFF, 0xFF, 0xFF, 0xFE, 0x05, 0, 0, 0, 1, 0x75, 0xF9]
    ensures Block(NESTED2) == [0xB8, 0xFE, 0xFF, 0xFF, 0xFF, 0x05, 1, 0, 0, 0, 0x75, 0xF9]
    ensures RET == 0xC3
  {}

  // The number of blocks it takes to fill all but the last 100 bytes, and no fewer.
  function BlockCount(size: nat): (n: nat)
    requires size >= 100
    ensures 12 * n >= size - 100 && (n > 0 ==> 12 * (n - 1) < size - 100)
  {
    (size - 100 + 11) / 12
  }

  method EmitBlock(code: array<byte>, at: nat, t: Template) returns (next: nat)
    requires t.Valid() && at + 12 <= code.Length
    modifies code
    ensures next == at + 12
    ensures code[..] == Overwrite(old(code[..]), at, Block(t))
  {
    var i := at;
    code[i] := MOV_EAX;
    i := EmitImmediate(code, i + 1, t.mov);
    code[i] := ADD_EAX;
    i := EmitImmediate(code, i + 1, t.add);
    code[i] := JNZ;
    code[i + 1] := 0xF9;  // -7
    next := i + 2;
  }

  method EmitImmediate(code: array<byte>, at: nat, imm: seq<byte>) returns (next: nat)
    requires |imm| == 4 && at + 4 <= code.Length
    modifies code
    ensures next == at + 4
    ensures forall j :: at <= j < at + 4 ==> code[j] == imm[j - at]
    ensures forall j :: 0 <= j < code.Length && !(at <= j < at + 4) ==> code[j] == old(code[j])
  {
    code[at] := imm[0];
    code[at + 1] := imm[1];
    code[at + 2] := imm[2];
    code[at + 3] := imm[3];
    next := at + 4;
  }

  lemma OverwriteMore(s: seq<byte>, a: seq<byte>, b: seq<byte>)
    requires |a| + |b| <= |s|
    ensures Overwrite(Overwrite(s, 0, a), |a|, b) == Overwrite(s, 0, a + b)
  {}

  lemma IsGenerated(code: seq<byte>, original: seq<byte>, t: Template, n: nat)
    requires t.Valid() && 12 * n < |original| && code == Overwrite(original, 0, Blocks(t, n) + [RET])
    ensures Generated(code, t, n)
  {
    assert (Blocks(t, n) + [RET])[12 * n] == RET;
    assert code[..12 * n] == Blocks(t, n);
  }

  method GenCode(code: array<byte>, t: Template)
    requires t.Valid() && 100 <= code.Length < 0x8000_0000
    modifies code
    ensures var n := BlockCount(code.Length);
            && code.Length - 100 <= 12 * n < code.Length && (n > 0 ==> 12 * (n - 1) < code.Length - 100)
            && code[..] == Overwrite(old(code[..]), 0, Blocks(t, n) + [RET])
            && Generated(code[..], t, n)
  {
    var i := 0;
    ghost var n := 0;
    ghost var original := code[..];
    while i < code.Length - 100
      invariant i == 12 * n <= code.Length - 89
      invariant code[..] == Overwrite(original, 0, Blocks(t, n))
    {
      OverwriteMore(original, Blocks(t, n), Block(t));
      i := EmitBlock(code, i, t);
      n := n + 1;
    }
    OverwriteMore(original, Blocks(t, n), [RET]);
    ghost var before := code[..];
    code[i] := RET;
    assert code[..] == Overwrite(before, i, [RET]);
    IsGenerated(code[..], original, t, n);
  }

  ghost predicate BlockAt(code: seq<byte>, at: nat, t: Template)
    requires t.Valid()
  {
    at + 12 <= |code| && code[at..at + 12] == Block(t)
  }

  function Start(t: Template): nat { FromLittleEndian(t.mov) }

  function Increment(t: Template): nat { FromLittleEndian(t.add) }

  // eax after `j` additions.
  function Counter(t: Template, j: nat): nat {
    if j == 0 then Start(t) else (Counter(t, j - 1) + Increment(t)) % WORD32
  }

  function Times(j: nat, b: nat): nat { if j == 0 then 0 else Times(j - 1, b) + b }

  lemma {:induction false} TimesIsProduct(j: nat, b: nat)
    ensures Times(j, b) == j * b
  {
    if j > 0 { TimesIsProduct(j - 1, b); }
  }

  lemma {:induction false} CounterClosed(t: Template, j: nat)
    ensures Counter(t, j) % WORD32 == (Start(t) + Times(j, Increment(t))) % WORD32
  {
    if j > 0 {
      CounterClosed(t, j - 1);
      ModAddSame(Counter(t, j - 1), Start(t) + Times(j - 1, Increment(t)), Increment(t));
    }
  }

  lemma ModAddSame(x: nat, y: nat, z: nat)
    requires x % WORD32 == y % WORD32
    ensures (x + z) % WORD32 == (y + z) % WORD32
  {
    ModAdd(x, z);
    ModAdd(y, z);
  }

  // What the bytes of a block decode to; the jump leads back to its own `add`.
  lemma Decode(code: seq<byte>, at: nat, t: Template, eax: nat, zero: bool)
    requires t.Valid() && BlockAt(code, at, t)
    ensures Execute(code, Running(at, eax, zero)) == Running(at + 5, Start(t), zero)
    ensures var sum := (eax + Increment(t)) % WORD32;
            Execute(code, Running(at + 5, eax, zero)) == Running(at + 10, sum, sum == 0)
    ensures Execute(code, Running(at + 10, eax, zero)) == Running(if zero then at + 12 else at + 5, eax, zero)
  {
    var b := Block(t);
    assert forall i :: 0 <= i < 12 ==> code[at + i] == code[at..at + 12][i] == b[i];
    assert code[at + 1..at + 5] == b[1..5] == t.mov;
    assert code[at + 6..at + 10] == b[6..10] == t.add;
    assert code[at] == b[0] && code[at + 5] == b[5] && code[at + 10] == b[10] && code[at + 11] == b[11];
  }

  lemma ModAdd(x: nat, y: nat)
    ensures (x % WORD32 + y) % WORD32 == (x + y) % WORD32
  {
    var q := x / WORD32;
    assert x + y == x % WORD32 + y + WORD32 * q;
  }

  // One time round the loop.
  lemma LoopOnce(code: seq<byte>, at: nat, t: Template, j: nat, zero: bool)
    requires t.Valid() && BlockAt(code, at, t)
    ensures var next := Counter(t, j + 1);
            Steps(code, Running(at + 5, Counter(t, j), zero), 2)
            == Running(if next == 0 then at + 12 else at + 5, next, next == 0)
  {
    var next := Counter(t, j + 1);
    Decode(code, at, t, Counter(t, j), zero);
    Decode(code, at, t, next, next == 0);
    var c := Running(at + 5, Counter(t, j), zero);
    assert Steps(code, c, 2) == Steps(code, Execute(code, c), 1) == Execute(code, Execute(code, c));
  }

  // While the counter has not been zero, control is in the loop.
  lemma {:induction false} InLoop(code: seq<byte>, at: nat, t: Template, j: nat, eax: nat, zero: bool)
    returns (z: bool)
    requires t.Valid() && BlockAt(code, at, t)
    requires forall i :: 1 <= i <= j ==> Counter(t, i) != 0
    ensures Steps(code, Running(at, eax, zero), 1 + 2 * j) == Running(at + 5, Counter(t, j), z)
  {
    var c := Running(at, eax, zero);
    Decode(code, at, t, eax, zero);
    if j == 0 {
      assert Steps(code, c, 1) == Steps(code, Execute(code, c), 0);
      z := zero;
    } else {
      z := InLoop(code, at, t, j - 1, eax, zero);
      LoopOnce(code, at, t, j - 1, z);
      StepsAdd(code, c, 1 + 2 * (j - 1), 2);
      z := false;
    }
  }

  // `k` is the first time the counter is zero.
  ghost predicate FirstZero(t: Template, k: nat) {
    k >= 1 && Counter(t, k) == 0 && forall i :: 1 <= i < k ==> Counter(t, i) != 0
  }

  // A block whose counter becomes zero first after `k` additions takes 1 + 2k steps.
  lemma RunBlock(code: seq<byte>, at: nat, t: Template, k: nat, eax: nat, zero: bool)
    requires t.Valid() && BlockAt(code, at, t) && FirstZero(t, k)
    ensures Steps(code, Running(at, eax, zero), 1 + 2 * k) == Running(at + 12, 0, true)
  {
    var c := Running(at, eax, zero);
    var z := InLoop(code, at, t, k - 1, eax, zero);
    LoopOnce(code, at, t, k - 1, z);
    StepsAdd(code, c, 1 + 2 * (k - 1), 2);
  }

  // A block whose counter never becomes zero is never left.
  lemma StuckInBlock(code: seq<byte>, at: nat, t: Template, eax: nat, zero: bool, n: nat)
    requires t.Valid() && BlockAt(code, at, t)
    requires forall i :: 1 <= i ==> Counter(t, i) != 0
    ensures var c := Steps(code, Running(at, eax, zero), n);
            c.Running? && at <= c.pc < at + 12
  {
    var c := Running(at, eax, zero);
    if n > 0 {
      var j := (n - 1) / 2;
      var z := InLoop(code, at, t, j, eax, zero);
      if n == 2 + 2 * j {
        StepsAdd(code, c, 1 + 2 * j, 1);
        Decode(code, at, t, Counter(t, j), z);
        assert Steps(code, Running(at + 5, Counter(t, j), z), 1)
            == Steps(code, Execute(code, Running(at + 5, Counter(t, j), z)), 0);
      }
    }
  }

  // `code` is `n` blocks and a `ret`, whatever follows.
  ghost predicate Generated(code: seq<byte>, t: Template, n: nat)
    requires t.Valid()
  {
    12 * n < |code| && code[..12 * n] == Blocks(t, n) && code[12 * n] == RET
  }

  lemma {:induction false} BlockOf(code: seq<byte>, t: Template, n: nat, i: nat)
    requires t.Valid() && i < n && 12 * n <= |code| && code[..12 * n] == Blocks(t, n)
    ensures BlockAt(code, 12 * i, t)
  {
    assert code[..12 * (n - 1)] == code[..12 * n][..12 * (n - 1)] == Blocks(t, n - 1);
    if i < n - 1 {
      BlockOf(code, t, n - 1, i);
    } else {
      assert code[12 * i..12 * i + 12] == code[..12 * n][12 * i..];
    }
  }

  lemma OneMore(i: nat, s: nat)
    ensures i * s + s == (i + 1) * s
  {}

  // Every block takes the same 1 + 2k steps, and then the `ret` one more.
  lemma {:induction false} RunBlocks(code: seq<byte>, t: Template, n: nat, i: nat, k: nat, eax: nat, zero: bool)
    requires t.Valid() && Generated(code, t, n) && 1 <= i <= n && FirstZero(t, k)
    ensures Steps(code, Running(0, eax, zero), i * (1 + 2 * k)) == Running(12 * i, 0, true)
  {
    BlockOf(code, t, n, i - 1);
    if i == 1 {
      RunBlock(code, 0, t, k, eax, zero);
    } else {
      RunBlocks(code, t, n, i - 1, k, eax, zero);
      RunBlock(code, 12 * (i - 1), t, k, 0, true);
      var s := 1 + 2 * k;
      OneMore(i - 1, s);
      StepsAdd(code, Running(0, eax, zero), (i - 1) * s, s);
    }
  }

  lemma ReturnsAfter(code: seq<byte>, t: Template, n: nat, k: nat, eax: nat, zero: bool)
    requires t.Valid() && Generated(code, t, n) && n >= 1 && FirstZero(t, k)
    ensures Steps(code, Running(0, eax, zero), n * (1 + 2 * k)) == Running(12 * n, 0, true)
    ensures Steps(code, Running(0, eax, zero), n * (1 + 2 * k) + 1) == Returned(0)
    ensures forall s: nat :: Steps(code, Running(0, eax, zero), s).Returned? <==> s > n * (1 + 2 * k)
  {
    RunBlocks(code, t, n, n, k, eax, zero);
    ReturnsNext(code, Running(0, eax, zero), n * (1 + 2 * k));
  }

  // Control at a `ret` after `m` steps: that is when the code returns, and not earlier.
  lemma ReturnsNext(code: seq<byte>, cpu: Cpu, m: nat)
    requires var at := Steps(code, cpu, m); at.Running? && 0 <= at.pc < |code| && code[at.pc] == RET
    ensures Steps(code, cpu, m + 1) == Returned(Steps(code, cpu, m).eax)
    ensures forall s: nat :: Steps(code, cpu, s).Returned? <==> s > m
  {
    var at := Steps(code, cpu, m);
    StepsAdd(code, cpu, m, 1);
    assert Steps(code, at, 1) == Steps(code, Execute(code, at), 0);
    forall s: nat ensures Steps(code, cpu, s).Returned? <==> s > m {
      if s > m {
        StepsAdd(code, cpu, m + 1, s - m - 1);
        ReturnedStays(code, at.eax, s - m - 1);
      } else if Steps(code, cpu, s).Returned? {
        StepsAdd(code, cpu, s, m - s);
        ReturnedStays(code, Steps(code, cpu, s).eax, m - s);
      }
    }
  }

  // Generated code returns just if the gcd of the increment and 2^32 divides the start value.
  lemma ReturnsIff(code: seq<byte>, t: Template, n: nat, eax: nat, zero: bool)
    requires t.Valid() && Generated(code, t, n) && n >= 1
    ensures (exists s: nat :: Steps(code, Running(0, eax, zero), s).Returned?)
       <==> Divides(Gcd(Increment(t), WORD32), Start(t))
  {
    ReachesZeroIff(Start(t), Increment(t), WORD32);
    if ReachesZero(Start(t), Increment(t), WORD32) {
      var k: nat :| k >= 1 && Divides(WORD32, Start(t) + k * Increment(t));
      CounterZeroIff(t, k);
      var k' := FindFirst(t, k);
      ReturnsAfter(code, t, n, k', eax, zero);
    } else {
      forall i: nat | 1 <= i ensures Counter(t, i) != 0 { CounterZeroIff(t, i); }
      forall s: nat ensures !Steps(code, Running(0, eax, zero), s).Returned? {
        BlockOf(code, t, n, 0);
        StuckInBlock(code, 0, t, eax, zero, s);
      }
    }
  }

  lemma CounterZeroIff(t: Template, k: nat)
    requires k >= 1
    ensures Counter(t, k) == 0 <==> Divides(WORD32, Start(t) + k * Increment(t))
  {
    CounterClosed(t, k);
    TimesIsProduct(k, Increment(t));
    ZeroModIff(Start(t) + k * Increment(t));
  }

  lemma ZeroModIff(v: nat)
    ensures v % WORD32 == 0 <==> Divides(WORD32, v)
  {
    if v % WORD32 == 0 {
      assert IsMultiple(v, WORD32, v / WORD32);
    }
    if Divides(WORD32, v) {
      var q :| IsMultiple(v, WORD32, q);
      assert v == WORD32 * q + 0;
    }
  }

  lemma FindFirst(t: Template, k: nat) returns (k': nat)
    requires k >= 1 && Counter(t, k) == 0
    ensures FirstZero(t, k')
  {
    k' := 1;
    while Counter(t, k') != 0
      invariant 1 <= k' <= k && forall i :: 1 <= i < k' ==> Counter(t, i) != 0
      decreases k - k'
    {
      k' := k' + 1;
    }
  }

  // signals-nested-2: the counter runs 0xFFFFFFFE, 0xFFFFFFFF, 0.
  lemma Nested2Returns(code: seq<byte>, n: nat, eax: nat, zero: bool)
    requires Generated(code, NESTED2, n)
    ensures Steps(code, Running(0, eax, zero), 5 * n) == Running(12 * n, if n > 0 then 0 else eax, n > 0 || zero)
    ensures Steps(code, Running(0, eax, zero), 5 * n + 1) == Returned(if n > 0 then 0 else eax)
    ensures forall s: nat :: Steps(code, Running(0, eax, zero), s).Returned? <==> s > 5 * n
  {
    if n == 0 {
      ReturnsNext(code, Running(0, eax, zero), 0);
    } else {
      Nested2Values();
      ReturnsAfter(code, NESTED2, n, 2, eax, zero);
    }
  }

  // The program's own buffer holds 349517 blocks.
  lemma Nested2ProgramReturns(code: seq<byte>, n: nat, eax: nat, zero: bool)
    requires n == BlockCount(CODE_SIZE) && Generated(code, NESTED2, n)
    ensures n == 349517
    ensures forall s: nat :: Steps(code, Running(0, eax, zero), s).Returned? <==> s >= 1_747_586
  {
    Nested2Returns(code, n, eax, zero);
  }

  lemma Nested2Values()
    ensures Start(NESTED2) == 0xFFFF_FFFE && Increment(NESTED2) == 1 && FirstZero(NESTED2, 2)
  {
    FourBytes(0xFE, 0xFF, 0xFF, 0xFF);
    FourBytes(1, 0, 0, 0);
    assert Counter(NESTED2, 1) == 0xFFFF_FFFF;
  }

  lemma NestedValues()
    ensures Start(NESTED) == 0xFEFF_FFFF && Increment(NESTED) == 0x0100_0000
  {
    FourBytes(0xFF, 0xFF, 0xFF, 0xFE);
    FourBytes(0, 0, 0, 1);
  }

  lemma FourBytes(a: byte, b: byte, c: byte, d: byte)
    ensures FromLittleEndian([a, b, c, d]) == a + 0x100 * b + 0x1_0000 * c + 0x100_0000 * d
  {
    assert [a, b, c, d][1..] == [b, c, d];
    assert [b, c, d][1..] == [c, d];
    assert [c, d][1..] == [d];
    assert [d][1..] == [];
    assert FromLittleEndian([d]) == d;
    assert FromLittleEndian([c, d]) == c + 0x100 * d;
    assert FromLittleEndian([b, c, d]) == b + 0x100 * FromLittleEndian([c, d]);
  }

  lemma {:induction false} LowBits(i: nat)
    ensures Counter(NESTED, i) % 0x0100_0000 == 0xFF_FFFF
  {
    NestedValues();
    if i > 0 { LowBits(i - 1); }
  }

  // signals-nested: the low 24 bits of the counter never change, so the first block is never left.
  lemma NestedNeverReturns(code: seq<byte>, n: nat, eax: nat, zero: bool, s: nat)
    requires Generated(code, NESTED, n) && n >= 1
    ensures var c := Steps(code, Running(0, eax, zero), s);
            c.Running? && 0 <= c.pc < 12
  {
    NestedValues();
    forall i: nat | 1 <= i ensures Counter(NESTED, i) != 0 {
      LowBits(i);
    }
    BlockOf(code, NESTED, n, 0);
    StuckInBlock(code, 0, NESTED, eax, zero, s);
  }
}
