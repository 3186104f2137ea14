// The size-class memory pool: one linked free list per block size.

module BufPools {
  import opened IOBufs
  import opened Options

  const M4K := 4096
  const M16K := 16384
  const M64K := 65536
  const M256K := 262144
  const M1M := 1048576
  const M4M := 4194304
  const M8M := 8388608
  const CLASSES := {M4K, M16K, M64K, M256K, M1M, M4M, M8M}

  // in KB
  const EXTRA_MEM_LIMIT := 5 * 1024 * 1024

  // The smallest block size that holds n bytes.
  function SizeClass(n: int): (c: Option<nat>)
    ensures c.None? <==> n > M8M
    ensures c.Some? ==> c.value in CLASSES && n <= c.value && c.value % 1024 == 0
    ensures c.Some? ==> forall d :: d in CLASSES && n <= d ==> c.value <= d
  {
    if n <= M4K then Some(M4K)
    else if n <= M16K then Some(M16K)
    else if n <= M64K then Some(M64K)
    else if n <= M256K then Some(M256K)
    else if n <= M1M then Some(M1M)
    else if n <= M4M then Some(M4M)
    else if n <= M8M then Some(M8M)
    else None
  }

  // Memory of a set of blocks, in KB.
  ghost function KB(s: set<IOBuf>): nat {
    if s == {} then 0 else var b :| b in s; KB(s - {b}) + b.capacity / 1024
  }

  lemma {:induction false} KBAdd(s: set<IOBuf>, b: IOBuf)
    requires b !in s
    ensures KB(s + {b}) == KB(s) + b.capacity / 1024
  {
    var t := s + {b};
    var x :| x in t && KB(t) == KB(t - {x}) + x.capacity / 1024;
    if x == b {
      assert t - {x} == s;
    } else {
      var r := s - {x};
      assert t - {x} == r + {b} && s == r + {x};
      KBAdd(r, b);
      KBAdd(r, x);
    }
  }

  lemma {:induction false} KBUnion(s: set<IOBuf>, t: set<IOBuf>)
    requires s !! t
    ensures KB(s + t) == KB(s) + KB(t)
    decreases t
  {
    if t == {} {
      assert s + t == s;
    } else {
      var b :| b in t && KB(t) == KB(t - {b}) + b.capacity / 1024;
      assert s + t == s + (t - {b}) + {b};
      KBUnion(s, t - {b});
      KBAdd(s + (t - {b}), b);
    }
  }

  // No two blocks share their bytes.
  ghost predicate Separate(s: set<IOBuf>) {
    forall a, b :: a in s && b in s && a != b ==> a.data != b.data
  }

  // The blocks of s linked in order from h, all different: an acyclic list.
  ghost predicate Chain(h: IOBuf?, s: seq<IOBuf>)
    reads s
  {
    && h == (if s == [] then null else s[0])
    && (forall i {:trigger s[i].next} :: 0 <= i < |s| ==> s[i].next == if i + 1 < |s| then s[i + 1] else null)
    && (forall i, j :: 0 <= i < j < |s| ==> s[i] != s[j])
  }

  lemma ChainTail(h: IOBuf?, s: seq<IOBuf>)
    requires Chain(h, s) && s != []
    ensures h == s[0] && s[0] !in s[1..] && Chain(s[0].next, s[1..])
  {
    var t := s[1..];
    assert s[0].next == if t == [] then null else t[0];
    forall i | 0 <= i < |t| ensures t[i].next == if i + 1 < |t| then t[i + 1] else null {
      assert t[i].next == s[i + 1].next;
    }
  }

  lemma ChainCons(b: IOBuf, s: seq<IOBuf>)
    requires Chain(b.next, s) && b !in s
    ensures Chain(b, [b] + s)
  {
    var t := [b] + s;
    forall i | 0 <= i < |t| ensures t[i].next == if i + 1 < |t| then t[i + 1] else null {
      if i > 0 {
        assert t[i].next == s[i - 1].next;
      }
    }
  }

  // A free block is as the constructor made it.
  ghost predicate Blank(b: IOBuf, c: nat)
    reads b
  {
    b.capacity == c && b.data.Length == c && b.length == 0 && b.head == 0
  }

  // A chain of blank blocks of class c, and the set of them.
  ghost predicate Run(h: IOBuf?, s: seq<IOBuf>, blocks: set<IOBuf>, c: nat)
    reads s
  {
    && Chain(h, s)
    && (forall b :: b in blocks ==> b in s)
    && (forall b :: b in s ==> b in blocks)
    && (forall b :: b in s ==> Blank(b, c))
    && Separate(blocks)
  }

  // Links one more new block behind the last one.
  method Append(h: IOBuf, prev: IOBuf, ghost s: seq<IOBuf>, ghost blocks: set<IOBuf>, c: nat) returns (b: IOBuf)
    requires Run(h, s, blocks, c) && s != [] && prev == s[|s| - 1]
    modifies prev`next
    ensures fresh(b) && fresh(b.data) && b.capacity == c && b !in blocks && Run(h, s + [b], blocks + {b}, c)
  {
    b := new IOBuf(c);
    prev.next := b;
    assert b !in s;
  }

  // A class of count blocks, as the constructor of the pool links it.
  method Preallocate(c: nat, count: nat) returns (first: IOBuf, ghost made: seq<IOBuf>, ghost blocks: set<IOBuf>)
    requires count > 0
    ensures Run(first, made, blocks, c) && |made| == count
    ensures forall b :: b in blocks ==> fresh(b) && fresh(b.data)
    ensures KB(blocks) == Times(c / 1024, count)
  {
    hide Run, KB;
    first := new IOBuf(c);
    RunOne(first, c);
    var prev := first;
    made, blocks := [first], {first};
    var i := 1;
    while i < count
      invariant 1 <= i <= count && |made| == i && prev == made[i - 1] && prev in blocks
      invariant forall b :: b in blocks ==> fresh(b) && fresh(b.data)
      invariant Run(first, made, blocks, c)
      invariant KB(blocks) == Times(c / 1024, i)
    {
      var b := Append(first, prev, made, blocks, c);
      KBAdd(blocks, b);
      made := made + [b];
      blocks := blocks + {b};
      prev := b;
      i := i + 1;
    }
  }

  lemma RunOne(b: IOBuf, c: nat)
    requires Blank(b, c) && b.next == null
    ensures Run(b, [b], {b}, c) && KB({b}) == Times(c / 1024, 1)
  {
    KBAdd({}, b);
  }

  function Times(k: nat, n: nat): nat { if n == 0 then 0 else Times(k, n - 1) + k }

  lemma {:induction false} TimesIsProduct(k: nat, n: nat)
    ensures Times(k, n) == k * n
  {
    if n > 0 {
      TimesIsProduct(k, n - 1);
    }
  }

  // The free lists hold exactly the idle blocks, each in its class.
  ghost predicate Linked(pool: map<nat, IOBuf?>, free: map<nat, seq<IOBuf>>, blocks: set<IOBuf>, idle: set<IOBuf>)
    reads idle
  {
    && pool.Keys == free.Keys
    && idle <= blocks
    && Separate(blocks)
    && (forall b :: b in blocks ==> b.capacity in pool && b.data.Length == b.capacity)
    && (forall b :: b in idle ==> b in free[b.capacity])
    && (forall c, b :: c in free && b in free[c] ==> b in idle && Blank(b, c))
    && (forall c :: c in free ==> Chain(pool[c], free[c]))
  }

  lemma LinkedAdd(pool: map<nat, IOBuf?>, free: map<nat, seq<IOBuf>>, blocks: set<IOBuf>,
                  c: nat, first: IOBuf, made: seq<IOBuf>, extra: set<IOBuf>)
    requires Linked(pool, free, blocks, blocks) && c !in pool
    requires Run(first, made, extra, c)
    requires forall a, b :: a in blocks && b in extra ==> a != b && a.data != b.data
    ensures Linked(pool[c := first], free[c := made], blocks + extra, blocks + extra)
  {
    var pool', free', blocks' := pool[c := first], free[c := made], blocks + extra;
    forall b | b in blocks' ensures b.capacity in pool' && b.data.Length == b.capacity && b in free'[b.capacity] {
      if b in extra {
        assert Blank(b, c);
      }
    }
    forall d, b | d in free' && b in free'[d] ensures b in blocks' && Blank(b, d) {
      if d == c {
        assert b in made && b in extra;
      } else {
        assert b in free[d];
      }
    }
    forall d | d in free' ensures Chain(pool'[d], free'[d]) {
      if d != c {
        assert d in free;
      }
    }
  }

  lemma LinkedTake(pool: map<nat, IOBuf?>, free: map<nat, seq<IOBuf>>, blocks: set<IOBuf>, idle: set<IOBuf>, c: nat)
    requires Linked(pool, free, blocks, idle)
    requires c in free && free[c] != []
    ensures var b := free[c][0];
            c in pool && pool[c] == b && b in idle && Blank(b, c)
            && Linked(pool[c := b.next], free[c := free[c][1..]], blocks, idle - {b})
  {
    var b := free[c][0];
    assert b in free[c];
    ChainTail(pool[c], free[c]);
    var pool', free', idle' := pool[c := b.next], free[c := free[c][1..]], idle - {b};
    forall a | a in idle' ensures a in free'[a.capacity] {
      assert a in free[a.capacity];
      assert free[c] == [b] + free[c][1..];
    }
    forall d, a | d in free' && a in free'[d] ensures a in idle' && Blank(a, d) {
      if d == c {
        assert a in free[c][1..] && a in free[c];
      } else {
        assert a in free[d] && Blank(b, c) && Blank(a, d);
      }
    }
  }

  lemma LinkedNew(pool: map<nat, IOBuf?>, free: map<nat, seq<IOBuf>>, blocks: set<IOBuf>, idle: set<IOBuf>, b: IOBuf)
    requires Linked(pool, free, blocks, idle)
    requires b !in blocks && b.capacity in pool && b.data.Length == b.capacity
    requires forall a :: a in blocks ==> a.data != b.data
    ensures Linked(pool, free, blocks + {b}, idle)
  {
  }

  lemma LinkedGive(pool: map<nat, IOBuf?>, free: map<nat, seq<IOBuf>>, blocks: set<IOBuf>, idle: set<IOBuf>, b: IOBuf)
    requires Linked(pool, free, blocks, idle)
    requires b in blocks && b !in idle && Blank(b, b.capacity) && b.next == pool[b.capacity]
    ensures b.capacity in pool && b.capacity in free
    ensures Linked(pool[b.capacity := b], free[b.capacity := [b] + free[b.capacity]], blocks, idle + {b})
  {
    var c := b.capacity;
    var pool', free', idle' := pool[c := b], free[c := [b] + free[c]], idle + {b};
    assert b !in free[c];
    ChainCons(b, free[c]);
    forall a | a in idle' ensures a in free'[a.capacity] {
      if a != b {
        assert a in free[a.capacity];
      }
    }
    forall d, a | d in free' && a in free'[d] ensures a in idle' && Blank(a, d) {
      if a != b {
        assert a in free[d];
      }
    }
  }

  class BufPool {
    // the first free block of each class
    var pool: map<nat, IOBuf?>
    // memory taken from the system, in KB
    var totalMem: nat
    // the free list of each class
    ghost var free: map<nat, seq<IOBuf>>
    // every block ever created, and those in use
    ghost var blocks: set<IOBuf>
    ghost var lent: set<IOBuf>

    ghost function Free(): set<IOBuf>
      reads this
    {
      blocks - lent
    }

    // What the pool may write on behalf of a borrower: free blocks and their bytes.
    ghost function Reserve(): set<object>
      reads this
    {
      Free() + set b | b in Free() :: b.data
    }

    ghost predicate Consistent()
      reads this, Free()
    {
      lent <= blocks && Linked(pool, free, blocks, Free()) && totalMem == KB(blocks)
    }

    ghost predicate Intact()
      reads this, Free()
    {
      Consistent() && pool.Keys == CLASSES && totalMem < EXTRA_MEM_LIMIT
    }

    lemma InUse(b: IOBuf)
      requires Intact() && b in lent
      ensures b.capacity <= M8M && b.data.Length == b.capacity
      ensures b !in Reserve() && b.data !in Reserve()
      ensures forall a :: a in lent && a != b ==> a.data != b.data
    {
      hide KB;
    }

    // What the invariant comes to: the free lists are acyclic and share no block, every
    // block on one is empty and of that class, none is lent, and every block that is not
    // lent is on one; the memory is that of all blocks ever created, below the limit.
    lemma FreeLists()
      requires Intact()
      ensures forall c :: c in free ==> c in CLASSES && Chain(pool[c], free[c])
      ensures forall c, b :: c in free && b in free[c] ==> Blank(b, c) && b in blocks && b !in lent
      ensures forall c, d, b :: c in free && d in free && b in free[c] && b in free[d] ==> c == d
      ensures forall b :: b in blocks && b !in lent ==> b.capacity in free && b in free[b.capacity]
      ensures totalMem == KB(blocks) < EXTRA_MEM_LIMIT
    {
      hide KB, Chain;
      forall c, d, b | c in free && d in free && b in free[c] && b in free[d] ensures c == d {
        assert Blank(b, c) && Blank(b, d);
      }
    }

    lemma NothingYet()
      requires pool == map[] && free == map[] && blocks == lent == {} && totalMem == 0
      ensures Consistent()
    {
      assert Free() == {};
    }

    constructor ()
      ensures Intact() && totalMem == 334240 && lent == {}
      ensures forall b :: b in blocks ==> fresh(b) && fresh(b.data)
    {
      totalMem := 0;
      pool := map[];
      free := map[];
      blocks := {};
      lent := {};
      new;
      hide Consistent, Times, Free;
      NothingYet();
      AddAll();
    }

    method AddAll()
      requires Consistent() && pool.Keys == {} && blocks == lent == {} && totalMem == 0
      modifies this
      ensures Consistent() && pool.Keys == CLASSES && lent == {} && totalMem == 334240
      ensures forall b :: b in blocks ==> fresh(b) && fresh(b.data)
    {
      hide Consistent, Free;
      AddSmall();
      AddMedium();
      AddLarge();
    }

    method AddSmall()
      requires Consistent() && pool.Keys == {} && lent == {}
      modifies this
      ensures Consistent() && pool.Keys == {M4K, M16K} && lent == {}
      ensures totalMem == old(totalMem) + 36000
      ensures forall b :: b in blocks ==> b in old(blocks) || (fresh(b) && fresh(b.data))
    {
      hide Consistent, Free, Times;
      AddClass(M4K, 5000);
      AddClass(M16K, 1000);
      TimesIsProduct(4, 5000);
      TimesIsProduct(16, 1000);
    }

    method AddMedium()
      requires Consistent() && pool.Keys == {M4K, M16K} && lent == {}
      modifies this
      ensures Consistent() && pool.Keys == {M4K, M16K, M64K, M256K} && lent == {}
      ensures totalMem == old(totalMem) + 83200
      ensures forall b :: b in blocks ==> b in old(blocks) || (fresh(b) && fresh(b.data))
    {
      hide Consistent, Free, Times;
      AddClass(M64K, 500);
      AddClass(M256K, 200);
      TimesIsProduct(64, 500);
      TimesIsProduct(256, 200);
    }

    method AddLarge()
      requires Consistent() && pool.Keys == {M4K, M16K, M64K, M256K} && lent == {}
      modifies this
      ensures Consistent() && pool.Keys == CLASSES && lent == {}
      ensures totalMem == old(totalMem) + 215040
      ensures forall b :: b in blocks ==> b in old(blocks) || (fresh(b) && fresh(b.data))
    {
      hide Consistent, Free, Times;
      AddClass(M1M, 50);
      AddClass(M4M, 20);
      AddClass(M8M, 10);
      TimesIsProduct(1024, 50);
      TimesIsProduct(4096, 20);
      TimesIsProduct(8192, 10);
    }

    method AddClass(c: nat, count: nat)
      requires Consistent() && c !in pool && count > 0 && lent == {}
      modifies this
      ensures Consistent() && pool.Keys == old(pool.Keys) + {c} && lent == {}
      ensures totalMem == old(totalMem) + Times(c / 1024, count)
      ensures forall b :: b in blocks ==> b in old(blocks) || (fresh(b) && fresh(b.data))
    {
      hide Run, KB, Linked, Times;
      var first, made, extra := Preallocate(c, count);
      Install(c, count, first, made, extra);
    }

    // The chain becomes the free list of its class.
    method Install(c: nat, count: nat, first: IOBuf, ghost made: seq<IOBuf>, ghost extra: set<IOBuf>)
      requires Consistent() && c !in pool && lent == {}
      requires Run(first, made, extra, c) && KB(extra) == Times(c / 1024, count)
      requires forall a, b :: a in blocks && b in extra ==> a != b && a.data != b.data
      modifies this
      ensures Consistent() && pool.Keys == old(pool.Keys) + {c} && lent == {}
      ensures totalMem == old(totalMem) + Times(c / 1024, count)
      ensures blocks == old(blocks) + extra
    {
      hide Run, KB, Linked, Times;
      assert Free() == blocks;
      LinkedAdd(pool, free, blocks, c, first, made, extra);
      KBUnion(blocks, extra);
      pool, free, blocks, totalMem :=
        pool[c := first], free[c := made], blocks + extra, totalMem + Times(c / 1024, count);
      assert Free() == blocks;
    }

    // What a call of AllocBuf(n) does: nothing when n exceeds the largest class, exit(1)
    // when its class is exhausted and the memory limit reached.
    ghost predicate Exhausted(n: int)
      requires Intact()
      reads this, Free()
    {
      var c := SizeClass(n);
      c.Some? && free[c.value] == [] && totalMem + c.value / 1024 >= EXTRA_MEM_LIMIT
    }

    method AllocBuf(n: int) returns (b: IOBuf?, exited: bool)
      requires Intact()
      modifies this, Free()
      ensures Intact()
      ensures exited == old(Exhausted(n))
      ensures exited ==> old(totalMem) + M8M / 1024 >= EXTRA_MEM_LIMIT
      ensures old(totalMem) <= totalMem <= old(totalMem) + M8M / 1024
      ensures b == null <==> SizeClass(n).None? || exited
      ensures b != null ==>
                (fresh(b) && fresh(b.data)) || (b in old(Reserve()) && b.data in old(Reserve()))
      ensures b == null ==> lent == old(lent) && blocks == old(blocks) && free == old(free)
      ensures b != null ==>
                var c := SizeClass(n).value;
                && b !in old(lent) && lent == old(lent) + {b}
                && Blank(b, c) && b.next == null
                && (if old(free[c]) == []
                    then fresh(b) && fresh(b.data) && blocks == old(blocks) + {b} && free == old(free)
                         && totalMem == old(totalMem) + c / 1024
                    else b == old(free[c])[0] && blocks == old(blocks) && totalMem == old(totalMem)
                         && free == old(free)[c := old(free[c])[1..]])
    {
      exited := false;
      var index := SizeClass(n);
      if index.None? {
        return null, false;
      }
      var c := index.value;
      assert Chain(pool[c], free[c]);
      if pool[c] == null {
        if totalMem + c / 1024 >= EXTRA_MEM_LIMIT {
          return null, true;
        }
        b := Create(c);
      } else {
        b := Take(c);
      }
    }

    // A class that has run out gets one more block.
    method Create(c: nat) returns (b: IOBuf)
      requires Intact() && c in pool && totalMem + c / 1024 < EXTRA_MEM_LIMIT
      modifies this
      ensures Intact() && fresh(b) && fresh(b.data) && Blank(b, c) && b.next == null
      ensures lent == old(lent) + {b} && blocks == old(blocks) + {b} && free == old(free)
      ensures totalMem == old(totalMem) + c / 1024
    {
      b := new IOBuf(c);
      hide KB;
      ghost var idle := Free();
      LinkedNew(pool, free, blocks, idle, b);
      KBAdd(blocks, b);
      hide Linked;
      totalMem, blocks, lent := totalMem + c / 1024, blocks + {b}, lent + {b};
      assert Free() == idle;
    }

    // Unlinks the first free block of a class.
    method Take(c: nat) returns (target: IOBuf)
      requires Intact() && c in free && free[c] != []
      modifies this, Free()
      ensures target in old(Free()) && target.data in old(Reserve())
      ensures Intact() && target == old(free[c])[0] && Blank(target, c) && target.next == null
      ensures target !in old(lent) && lent == old(lent) + {target} && blocks == old(blocks)
      ensures free == old(free)[c := old(free[c])[1..]] && totalMem == old(totalMem)
    {
      hide KB, Linked;
      LinkedTake(pool, free, blocks, Free(), c);
      target := pool[c];
      ghost var idle := Free() - {target};
      pool, free, lent := pool[c := target.next], free[c := free[c][1..]], lent + {target};
      assert Free() == idle;
      target.next := null;
    }

    // Puts a block back at the head of its class.
    method Revert(buffer: IOBuf)
      requires Intact() && buffer in lent
      modifies this, buffer
      ensures Intact() && blocks == old(blocks) && lent == old(lent) - {buffer}
      ensures totalMem == old(totalMem)
      ensures free == old(free)[buffer.capacity := [buffer] + old(free[buffer.capacity])]
    {
      buffer.length, buffer.head := 0, 0;
      buffer.next := pool[buffer.capacity];
      Link(buffer);
    }

    method Link(buffer: IOBuf)
      requires Intact() && buffer in lent
      requires Blank(buffer, buffer.capacity) && buffer.next == pool[buffer.capacity]
      modifies this
      ensures Intact() && blocks == old(blocks) && lent == old(lent) - {buffer}
      ensures totalMem == old(totalMem)
      ensures free == old(free)[buffer.capacity := [buffer] + old(free[buffer.capacity])]
    {
      hide KB, Linked;
      ghost var idle := Free();
      LinkedGive(pool, free, blocks, idle, buffer);
      var c := buffer.capacity;
      pool, free, lent := pool[c := buffer], free[c := [buffer] + free[c]], lent - {buffer};
      assert Free() == idle + {buffer};
    }
  }
}
