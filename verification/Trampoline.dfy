/** Copyable functions: a section of code is copied, and each copy bound at run time to a target and a marshaler. */
module Trampoline {
  import opened Words

  type Memory = map<nat, byte>

  /** Offsets within the section: of the trampoline, of the two words that hold an instance's target and
      marshaler, and in the address-patched variant of the `movabs` whose immediate is patched. */
  datatype Layout = Layout(size: nat, code: nat, info: nat, patch: Option<nat>) {
    predicate Valid() {
      && code < size && info + 16 <= size
      && (patch.Some? ==>
            patch.value + 10 <= size && (patch.value + 10 <= info || info + 16 <= patch.value))
    }
  }

  datatype Instance = Instance(base: nat, target: nat, marshaler: nat)

  datatype Outcome<A> = Invoked(marshaler: nat, args: A, target: nat) | Crash

  predicate HasRange(mem: Memory, at: nat, n: nat) {
    forall i :: at <= i < at + n ==> i in mem
  }

  function Bytes(mem: Memory, at: nat, n: nat): (s: seq<byte>)
    requires HasRange(mem, at, n)
    ensures |s| == n && forall i :: 0 <= i < n ==> s[i] == mem[at + i]
  {
    seq(n, i requires 0 <= i < n => mem[at + i])
  }

  // Memory with `s` stored at `at`.
  function Stored(mem: Memory, at: nat, s: seq<byte>): Memory {
    var n := |s| - 1;
    if s == [] then mem else Stored(mem, at, s[..n])[at + n := s[n]]
  }

  lemma {:induction false} StoredAt(mem: Memory, at: nat, s: seq<byte>, a: nat)
    ensures a in Stored(mem, at, s) <==> a in mem || at <= a < at + |s|
    ensures a in Stored(mem, at, s) ==> Stored(mem, at, s)[a] == if at <= a < at + |s| then s[a - at] else mem[a]
  {
    if s != [] { StoredAt(mem, at, s[..|s| - 1], a); }
  }

  // Storing into a range overwrites part of what it holds, and nothing elsewhere.
  lemma BytesStored(mem: Memory, base: nat, n: nat, offset: nat, b: seq<byte>)
    requires HasRange(mem, base, n) && offset + |b| <= n
    ensures HasRange(Stored(mem, base + offset, b), base, n)
    ensures Bytes(Stored(mem, base + offset, b), base, n) == Overwrite(Bytes(mem, base, n), offset, b)
  {
    var mem' := Stored(mem, base + offset, b);
    forall i | base <= i < base + n ensures i in mem' {
      StoredAt(mem, base + offset, b, i);
    }
    var was, now := Bytes(mem, base, n), Bytes(mem', base, n);
    forall j | 0 <= j < n ensures now[j] == if offset <= j < offset + |b| then b[j - offset] else was[j] {
      StoredAt(mem, base + offset, b, base + j);
    }
    assert now == Overwrite(was, offset, b);
  }

  lemma BytesNew(mem: Memory, base: nat, s: seq<byte>)
    ensures HasRange(Stored(mem, base, s), base, |s|) && Bytes(Stored(mem, base, s), base, |s|) == s
  {
    forall i | base <= i < base + |s| ensures i in Stored(mem, base, s) && Stored(mem, base, s)[i] == s[i - base] {
      StoredAt(mem, base, s, i);
    }
  }

  ghost predicate Extends(mem: Memory, mem': Memory) {
    forall a :: a in mem ==> a in mem' && mem'[a] == mem[a]
  }

  // Storing into addresses that `old` does not have leaves the rest of `old` as it is.
  lemma ExtendsStored(old0: Memory, mem: Memory, at: nat, s: seq<byte>)
    requires Extends(old0, mem) && forall a :: at <= a < at + |s| ==> a !in old0
    ensures Extends(old0, Stored(mem, at, s))
  {
    forall a | a in old0 ensures a in Stored(mem, at, s) && Stored(mem, at, s)[a] == old0[a] {
      StoredAt(mem, at, s, a);
    }
  }

  lemma ExtendsBytes(mem: Memory, mem': Memory, at: nat, n: nat)
    requires Extends(mem, mem') && HasRange(mem, at, n)
    ensures HasRange(mem', at, n) && Bytes(mem', at, n) == Bytes(mem, at, n)
  {}

  function Quad(v: nat): seq<byte> { LittleEndian(v, 8) }

  // What an instance's copy of the section contains.
  function Image(canonical: seq<byte>, l: Layout, i: Instance): (r: seq<byte>)
    requires l.Valid() && |canonical| == l.size
    ensures |r| == l.size
  {
    var patched := if l.patch.Some? then Overwrite(canonical, l.patch.value + 2, Quad(i.base + l.info)) else canonical;
    Overwrite(Overwrite(patched, l.info, Quad(i.target)), l.info + 8, Quad(i.marshaler))
  }

  // The bytes that may differ between an instance and the canonical section.
  predicate Bound(l: Layout, offset: nat) {
    l.info <= offset < l.info + 16 || (l.patch.Some? && l.patch.value + 2 <= offset < l.patch.value + 10)
  }

  // Calling the trampoline at `entry`: the code around the bound words must be that of the canonical section;
  // it finds the info words through its patched immediate, or relative to itself, and jumps to the marshaler.
  ghost function Call<A>(mem: Memory, canonical: seq<byte>, l: Layout, entry: nat, args: A): Outcome<A>
    requires l.Valid() && |canonical| == l.size
  {
    if entry < l.code then Crash
    else
      var base := entry - l.code;
      if !HasRange(mem, base, l.size) then Crash
      else if !CodeIntact(Bytes(mem, base, l.size), canonical, l) then Crash
      else
        var info := if l.patch.Some? then LoadQuad(mem, base + l.patch.value + 2) else base + l.info;
        if !HasRange(mem, info, 16) then Crash
        else Invoked(LoadQuad(mem, info + 8), args, LoadQuad(mem, info))
  }

  predicate CodeIntact(copy: seq<byte>, canonical: seq<byte>, l: Layout)
    requires |copy| == |canonical|
  {
    forall j :: 0 <= j < |copy| && !Bound(l, j) ==> copy[j] == canonical[j]
  }

  function LoadQuad(mem: Memory, at: nat): nat
    requires HasRange(mem, at, 8)
  {
    FromLittleEndian(Bytes(mem, at, 8))
  }

  lemma QuadRoundTrip(v: nat)
    requires v < WORD64
    ensures FromLittleEndian(Quad(v)) == v
  {
    WordSizes();
    LittleEndianRoundTrip(v, 8);
  }

  lemma ImageAt(canonical: seq<byte>, l: Layout, i: Instance, j: nat)
    requires l.Valid() && |canonical| == l.size && j < l.size
    ensures Image(canonical, l, i)[j] ==
              if l.info <= j < l.info + 8 then Quad(i.target)[j - l.info]
              else if l.info + 8 <= j < l.info + 16 then Quad(i.marshaler)[j - l.info - 8]
              else if l.patch.Some? && l.patch.value + 2 <= j < l.patch.value + 10 then
                Quad(i.base + l.info)[j - l.patch.value - 2]
              else canonical[j]
  {}

  ghost predicate InstanceOk(mem: Memory, canonical: seq<byte>, l: Layout, i: Instance)
    requires l.Valid() && |canonical| == l.size
  {
    && i.base + l.size <= WORD64 && i.target < WORD64 && i.marshaler < WORD64
    && HasRange(mem, i.base, l.size)
    && Bytes(mem, i.base, l.size) == Image(canonical, l, i)
  }

  // A call through an instance reaches its own marshaler, with its own target and the arguments as they were.
  lemma CallInstance<A>(mem: Memory, canonical: seq<byte>, l: Layout, i: Instance, args: A)
    requires l.Valid() && |canonical| == l.size && InstanceOk(mem, canonical, l, i)
    ensures Call(mem, canonical, l, i.base + l.code, args) == Invoked(i.marshaler, args, i.target)
  {
    var image := Image(canonical, l, i);
    forall j | 0 <= j < l.size
      ensures !Bound(l, j) ==> image[j] == canonical[j]
      ensures mem[i.base + j] == image[j]
    {
      ImageAt(canonical, l, i, j);
      assert Bytes(mem, i.base, l.size)[j] == mem[i.base + j];
    }
    InstanceWords(mem, canonical, l, i);
  }

  // The trampoline is its code: one other byte outside the words an instance binds, and the call goes wrong.
  lemma CallNeedsCode<A>(mem: Memory, canonical: seq<byte>, l: Layout, base: nat, j: nat, args: A)
    requires l.Valid() && |canonical| == l.size && HasRange(mem, base, l.size)
    requires j < l.size && mem[base + j] != canonical[j] && !(l.info <= j < l.info + 16)
    requires !(l.patch.Some? && l.patch.value + 2 <= j < l.patch.value + 10)
    ensures Call(mem, canonical, l, base + l.code, args) == Crash
  {
    assert Bytes(mem, base, l.size)[j] == mem[base + j];
  }

  lemma LoadFromImage(mem: Memory, canonical: seq<byte>, l: Layout, i: Instance, at: nat, v: nat)
    requires l.Valid() && |canonical| == l.size && InstanceOk(mem, canonical, l, i)
    requires (at == l.info && v == i.target) || (at == l.info + 8 && v == i.marshaler)
          || (l.patch.Some? && at == l.patch.value + 2 && v == i.base + l.info)
    ensures HasRange(mem, i.base + at, 8) && LoadQuad(mem, i.base + at) == v
  {
    forall j | 0 <= j < 8 ensures mem[i.base + at + j] == Quad(v)[j] {
      ImageAt(canonical, l, i, at + j);
      assert Bytes(mem, i.base, l.size)[at + j] == mem[i.base + (at + j)];
    }
    assert Bytes(mem, i.base + at, 8) == Quad(v);
    QuadRoundTrip(v);
  }

  // Where an instance's copy holds its words.
  lemma InstanceWords(mem: Memory, canonical: seq<byte>, l: Layout, i: Instance)
    requires l.Valid() && |canonical| == l.size && InstanceOk(mem, canonical, l, i)
    ensures HasRange(mem, i.base + l.info, 16)
    ensures LoadQuad(mem, i.base + l.info) == i.target && LoadQuad(mem, i.base + l.info + 8) == i.marshaler
    ensures l.patch.Some? ==>
              HasRange(mem, i.base + l.patch.value + 2, 8)
              && LoadQuad(mem, i.base + l.patch.value + 2) == i.base + l.info
  {
    LoadFromImage(mem, canonical, l, i, l.info, i.target);
    LoadFromImage(mem, canonical, l, i, l.info + 8, i.marshaler);
    if l.patch.Some? {
      LoadFromImage(mem, canonical, l, i, l.patch.value + 2, i.base + l.info);
    }
  }

  /** The process: its memory, the section in it, and the instances made so far. */
  class Loader {
    const layout: Layout
    const section: nat  // where the canonical section is
    var mem: Memory
    ghost const canonical: seq<byte>
    ghost var instances: seq<Instance>

    ghost predicate Valid()
      reads this
    {
      && layout.Valid() && |canonical| == layout.size
      && HasRange(mem, section, layout.size) && Bytes(mem, section, layout.size) == canonical
      && forall k :: 0 <= k < |instances| ==> InstanceOk(mem, canonical, layout, instances[k])
    }

    constructor (layout: Layout, section: nat, mem: Memory)
      requires layout.Valid() && HasRange(mem, section, layout.size)
      ensures Valid() && this.mem == mem && instances == []
      ensures this.layout == layout && this.section == section
      ensures canonical == Bytes(mem, section, layout.size)
    {
      this.layout, this.section, this.mem := layout, section, mem;
      canonical := Bytes(mem, section, layout.size);
      instances := [];
    }

    // make_instance, with `base` what mmap returns.
    method MakeInstance(base: nat, target: nat, marshaler: nat) returns (entry: nat)
      requires Valid() && target < WORD64 && marshaler < WORD64 && base + layout.size <= WORD64
      requires forall a :: base <= a < base + layout.size ==> a !in mem
      modifies this
      ensures Valid() && entry == base + layout.code
      ensures instances == old(instances) + [Instance(base, target, marshaler)]
      ensures Extends(old(mem), mem)
      ensures HasRange(mem, base + layout.info, 16)
      ensures LoadQuad(mem, base + layout.info) == target && LoadQuad(mem, base + layout.info + 8) == marshaler
      ensures layout.patch.Some? ==>
                HasRange(mem, base + layout.patch.value + 2, 8)
                && LoadQuad(mem, base + layout.patch.value + 2) == base + layout.info
    {
      ghost var before := mem;
      mem := CopySection(mem, base);
      mem := Bind(mem, before, base, target, marshaler);
      entry := base + layout.code;
      instances := instances + [Instance(base, target, marshaler)];
      ExtendsBytes(before, mem, section, layout.size);
      forall k | 0 <= k < |instances| ensures InstanceOk(mem, canonical, layout, instances[k]) {
        if k < |instances| - 1 {
          ExtendsBytes(before, mem, instances[k].base, layout.size);
        }
      }
      InstanceWords(mem, canonical, layout, instances[|instances| - 1]);
    }

    method CopySection(mem: Memory, base: nat) returns (mem': Memory)
      requires layout.Valid() && |canonical| == layout.size
      requires HasRange(mem, section, layout.size) && Bytes(mem, section, layout.size) == canonical
      requires forall a :: base <= a < base + layout.size ==> a !in mem
      ensures Extends(mem, mem') && HasRange(mem', base, layout.size) && Bytes(mem', base, layout.size) == canonical
    {
      mem' := Stored(mem, base, Bytes(mem, section, layout.size));
      BytesNew(mem, base, canonical);
      ExtendsStored(mem, mem, base, canonical);
    }

    method Bind(mem: Memory, ghost before: Memory, base: nat, target: nat, marshaler: nat) returns (mem': Memory)
      requires layout.Valid() && |canonical| == layout.size && Extends(before, mem)
      requires HasRange(mem, base, layout.size) && Bytes(mem, base, layout.size) == canonical
      requires forall a :: base <= a < base + layout.size ==> a !in before
      ensures Extends(before, mem') && HasRange(mem', base, layout.size)
      ensures Bytes(mem', base, layout.size) == Image(canonical, layout, Instance(base, target, marshaler))
    {
      mem' := mem;
      ghost var patched := canonical;
      if layout.patch.Some? {
        patched := Overwrite(canonical, layout.patch.value + 2, Quad(base + layout.info));
        mem' := Write(mem', before, base, layout.patch.value + 2, base + layout.info);
      }
      assert Bytes(mem', base, layout.size) == patched;
      mem' := Write(mem', before, base, layout.info, target);
      mem' := Write(mem', before, base, layout.info + 8, marshaler);
    }

    // Stores a word at an offset in the copy at `base`.
    method Write(mem: Memory, ghost before: Memory, base: nat, offset: nat, v: nat) returns (mem': Memory)
      requires Extends(before, mem) && HasRange(mem, base, layout.size) && offset + 8 <= layout.size
      requires forall a :: base <= a < base + layout.size ==> a !in before
      ensures Extends(before, mem') && HasRange(mem', base, layout.size)
      ensures Bytes(mem', base, layout.size) == Overwrite(Bytes(mem, base, layout.size), offset, Quad(v))
    {
      mem' := Stored(mem, base + offset, Quad(v));
      BytesStored(mem, base, layout.size, offset, Quad(v));
      ExtendsStored(before, mem, base + offset, Quad(v));
    }

    // After any number of make_instance calls, every instance still behaves as its own.
    lemma EveryInstance<A>(k: nat, args: A)
      requires Valid() && k < |instances|
      ensures var i := instances[k];
              Call(mem, canonical, layout, i.base + layout.code, args) == Invoked(i.marshaler, args, i.target)
    {
      CallInstance(mem, canonical, layout, instances[k], args);
    }
  }

  // An instance's copy differs from the canonical section only in the bound bytes.
  lemma ImageDiffersOnlyWhereBound(canonical: seq<byte>, l: Layout, i: Instance)
    requires l.Valid() && |canonical| == l.size
    ensures forall j :: 0 <= j < l.size && !(l.info <= j < l.info + 16)
                        && !(l.patch.Some? && l.patch.value + 2 <= j < l.patch.value + 10) ==>
              Image(canonical, l, i)[j] == canonical[j]
  {
    forall j | 0 <= j < l.size && !(l.info <= j < l.info + 16)
               && !(l.patch.Some? && l.patch.value + 2 <= j < l.patch.value + 10)
      ensures Image(canonical, l, i)[j] == canonical[j]
    {
      ImageAt(canonical, l, i, j);
    }
  }
}
