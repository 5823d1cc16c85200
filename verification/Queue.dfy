/** A first-in first-out queue over a linked list of fixed-size chunks. */
module Queue {
  import opened Arithmetic
  import opened Sequences

  class Chunk<T(0)> {
    var next: Chunk?<T>
    const data: array<T>

    constructor (size: nat)
      ensures next == null && data.Length == size && fresh(data)
    {
      next := null;
      data := new T[size];
    }
  }

  /** One element where it was constructed. */
  datatype Slot<T(0)> = Slot(chunk: Chunk<T>, idx: nat, value: T)

  function Values<T(0)>(s: seq<Slot<T>>): seq<T> {
    seq(|s|, i requires 0 <= i < |s| => s[i].value)
  }

  ghost function Row<T(0)>(c: Chunk<T>): (s: seq<Slot<T>>)
    reads c.data
    ensures |s| == c.data.Length
    ensures forall i :: 0 <= i < |s| ==> s[i] == Slot(c, i, c.data[i])
  {
    seq(c.data.Length, i requires 0 <= i < c.data.Length reads c.data => Slot(c, i, c.data[i]))
  }

  /** All slots of the chunks, one chunk after the other. */
  ghost function Slots<T(0)>(cs: seq<Chunk<T>>): (s: seq<Slot<T>>)
    reads set i | 0 <= i < |cs| :: cs[i].data
  {
    if cs == [] then [] else Row(cs[0]) + Slots(cs[1..])
  }

  lemma {:induction false} SlotsConcat<T(0)>(a: seq<Chunk<T>>, b: seq<Chunk<T>>)
    ensures Slots(a + b) == Slots(a) + Slots(b)
  {
    if a == [] {
      assert a + b == b;
    } else {
      assert (a + b)[1..] == a[1..] + b;
      SlotsConcat(a[1..], b);
    }
  }

  lemma {:induction false} SlotsLength<T(0)>(cs: seq<Chunk<T>>, size: nat)
    requires forall i :: 0 <= i < |cs| ==> cs[i].data.Length == size
    ensures |Slots(cs)| == |cs| * size
  {
    if cs != [] {
      SlotsLength(cs[1..], size);
      assert |cs| * size == size + (|cs| - 1) * size;
    }
  }

  /** s without its first f and its last e elements. */
  function Between<T>(s: seq<T>, f: nat, e: nat): seq<T>
    requires f + e <= |s|
  {
    s[f..|s| - e]
  }

  predicate InPlace<T(0)>(size: nat, made: seq<Chunk<T>>, slot: Slot<T>, k: nat)
    requires size > 0
  {
    k / size < |made| && slot.chunk == made[k / size] && slot.idx == k % size
  }

  ghost predicate IsPlaced<T(0)>(size: nat, made: seq<Chunk<T>>, pushed: seq<Slot<T>>)
    requires size > 0
  {
    forall k :: 0 <= k < |pushed| ==> InPlace(size, made, pushed[k], k)
  }

  class Queue<T(0)> {
    const chunkElements: nat   // elements per chunk, at least one
    var front: Chunk?<T>
    var back: Chunk?<T>
    var idxFront: nat
    var idxEnd: nat

    ghost var chunks: seq<Chunk<T>>      // the live chunks, front to back
    ghost var pushed: seq<Slot<T>>       // every element ever pushed, and where
    ghost var destroyed: seq<Slot<T>>    // every element destroyed so far, in order
    ghost var made: seq<Chunk<T>>        // every chunk ever allocated
    ghost var freed: seq<Chunk<T>>       // every chunk deallocated so far, in order

    ghost function Datas(): set<object>
      reads `chunks
    {
      set i | 0 <= i < |chunks| :: chunks[i].data
    }

    ghost predicate Chained()
      reads `chunks, `front, `back, chunks
    {
      && chunkElements > 0
      && front == At(chunks, 0, null)
      && (chunks != [] ==> back == chunks[|chunks| - 1])
      && (forall i {:trigger chunks[i].next} :: 0 <= i < |chunks| ==> chunks[i].next == At(chunks, i + 1, null))
      && (forall i :: 0 <= i < |chunks| ==> chunks[i].data.Length == chunkElements)
      && (forall i, j :: 0 <= i < j < |chunks| ==> chunks[i] != chunks[j] && chunks[i].data != chunks[j].data)
    }

    /** No chunk: either none was ever made, or the last one was freed full and back dangles. */
    ghost predicate Spent()
      reads this
    {
      chunks == [] && back != null
    }

    ghost predicate Indexed()
      reads this
    {
      && idxFront < chunkElements
      && idxEnd <= chunkElements
      && (chunks == [] ==> idxFront == 0 && (back == null ==> idxEnd == 0))
      && (|chunks| == 1 ==> idxFront <= idxEnd)
      && (chunks != [] ==> idxEnd > 0)
    }

    /** The window of queued slots fits into the chunks. */
    ghost predicate Fits()
      reads this, chunks
    {
      && Chained() && chunks != []
      && idxFront < chunkElements && idxEnd <= chunkElements
      && (|chunks| == 1 ==> idxFront <= idxEnd)
    }

    /** The slots from idxFront of the first chunk to idxEnd of the last. */
    ghost function Window(): seq<Slot<T>>
      requires Fits()
      reads this, chunks, Datas()
    {
      WindowFits(this);
      Between(Slots(chunks), idxFront, chunkElements - idxEnd)
    }

    /** The slots in use, oldest element first. */
    ghost function Live(): seq<Slot<T>>
      requires Chained() && Indexed()
      reads this, chunks, Datas()
    {
      if chunks == [] then [] else Window()
    }

    /** The queued elements. */
    ghost function Items(): seq<T>
      requires Chained() && Indexed()
      reads this, chunks, Datas()
    {
      Values(Live())
    }

    /** The k-th push went to the k-th slot of all the chunks made. */
    ghost predicate Placed()
      requires chunkElements > 0
      reads `made, `pushed
    {
      IsPlaced(chunkElements, made, pushed)
    }

    /** Everything pushed is destroyed or queued, in order; every chunk made is freed or live. */
    ghost predicate Valid()
      reads this, chunks, Datas()
    {
      && Chained() && Indexed()
      && pushed == destroyed + Live() && Placed()
      && made == freed + chunks
      && NoDup(made)
      && (back == null <==> made == [])
      && |destroyed| == |freed| * chunkElements + idxFront
    }

    constructor (chunkElements: nat)
      requires chunkElements > 0
      ensures Valid() && Items() == [] && !Spent()
      ensures pushed == [] && destroyed == [] && made == [] && freed == []
    {
      this.chunkElements := chunkElements;
      front, back, idxFront, idxEnd := null, null, 0, 0;
      chunks, pushed, destroyed, made, freed := [], [], [], [], [];
    }

    method Empty() returns (r: bool)
      requires Valid()
      ensures r <==> Items() == []
    {
      EmptyTest(this);
      if front == null {
        return true;
      }
      if front == back && idxFront == idxEnd {
        return true;
      }
      return false;
    }

    method Size() returns (n: nat)
      requires Valid()
      ensures n == |Items()|
    {
      hide Slots, Between, Row, IsPlaced, NoDup;
      var count := 0;
      var ptr := front;
      while ptr != null
        invariant count <= |chunks| && ptr == At(chunks, count, null)
        decreases |chunks| - count
      {
        count := count + 1;
        ptr := ptr.next;
      }
      if count == 0 {
        return 0;
      }
      LiveLength(this);
      n := (count - 1) * chunkElements + idxEnd - idxFront;
    }

    /** Link a new chunk in behind the back chunk. */
    method LinkBack()
      requires Chained() && chunks != []
      modifies `back, `idxEnd, `chunks, `made, back`next
      ensures Chained() && chunks == old(chunks) + [back] && idxEnd == 0
      ensures fresh(back) && fresh(back.data) && made == old(made) + [back]
    {
      var ptr := new Chunk<T>(chunkElements);
      back.next := ptr;
      back := ptr;
      idxEnd := 0;
      chunks, made := chunks + [ptr], made + [ptr];
    }

    /** A full back chunk gets a successor: the window does not change. */
    method Extend()
      requires Fits() && idxEnd == chunkElements
      modifies `back, `idxEnd, `chunks, `made, back`next
      ensures Fits() && idxEnd == 0 && Window() == old(Window())
      ensures chunks == old(chunks) + [back] && fresh(back) && fresh(back.data)
      ensures made == old(made) + [back]
    {
      ghost var cs, w := chunks, Slots(chunks);
      SlotsLength(cs, chunkElements);
      WindowFits(this);
      LinkBack();
      WindowSnoc(cs, back);
    }

    method FirstChunk()
      requires Chained() && Indexed() && chunks == [] && back == null
      modifies `front, `back, `chunks, `made
      ensures Fits() && idxEnd < chunkElements && Window() == []
      ensures chunks == [back] && fresh(back) && fresh(back.data)
      ensures made == old(made) + [back]
    {
      var ptr := new Chunk<T>(chunkElements);
      front, back := ptr, ptr;
      chunks, made := [ptr], made + [ptr];
      WindowFits(this);
      Multiples(|chunks|, chunkElements);
    }

    /** Construct t in the first free slot. */
    method Store(t: T)
      requires Fits() && idxEnd < chunkElements
      modifies `idxEnd, `pushed, back.data
      ensures Fits() && idxEnd == old(idxEnd) + 1
      ensures Window() == old(Window()) + [Slot(back, old(idxEnd), t)]
      ensures pushed == old(pushed) + [Slot(back, old(idxEnd), t)]
    {
      hide Slots, Between, Row;
      ghost var cs := chunks[..|chunks| - 1];
      ghost var p, d, s := Slots(cs), Row(back), Slots(chunks);
      assert chunks == cs + [back];
      assert s == p + d by { WindowSnoc(cs, back); }
      WindowFits(this);
      StoreAt(back, idxEnd, t, cs);
      ghost var slot := Slot(back, idxEnd, t);
      assert Slots(chunks) == p + d[idxEnd := slot] by { WindowSnoc(cs, back); }
      BetweenStore(p, d, idxFront, chunkElements - idxEnd, slot, s, Slots(chunks));
      idxEnd, pushed := idxEnd + 1, pushed + [slot];
    }

    /** Make room for one more element: the slots in use do not change. */
    method EnsureSlot()
      requires Valid() && !Spent()
      modifies `front, `back, `idxEnd, `chunks, `made, chunks
      ensures Fits() && idxEnd < chunkElements && Window() == old(Live())
      ensures made == freed + chunks && NoDup(made) && Placed()
      ensures forall i :: 0 <= i < |chunks| ==>
                (i < |old(chunks)| && chunks[i] == old(chunks)[i]) || (fresh(chunks[i]) && fresh(chunks[i].data))
    {
      hide Slots, Between, Chained, Row, IsPlaced;
      Ends(this);
      if chunks != [] {
        LiveIsWindow(this);
      }
      ghost var before, log := made, pushed;
      if back == null {
        FirstChunk();
        PlacedMore(chunkElements, before, back, log);
        return;
      }
      if idxEnd == chunkElements {
        Extend();
        PlacedMore(chunkElements, before, back, log);
      }
    }

    method Push(t: T)
      requires Valid() && !Spent()
      modifies this, chunks, Datas()
      ensures Valid() && !Spent()
      ensures Items() == old(Items()) + [t]
      ensures old(pushed) <= pushed && Values(pushed) == Values(old(pushed)) + [t]
      ensures destroyed == old(destroyed) && freed == old(freed)
      ensures forall i :: 0 <= i < |chunks| ==>
                (i < |old(chunks)| && chunks[i] == old(chunks)[i]) || (fresh(chunks[i]) && fresh(chunks[i].data))
    {
      hide Slots, Between, Chained, Row, IsPlaced, Window, NoDup;
      EnsureSlot();
      Ends(this);
      PushPlace(this);
      PlacedGrows(chunkElements, made, pushed, Slot(back, idxEnd, t));
      Store(t);
      LiveIsWindow(this);
    }

    /** Destroy the oldest element, and free its chunk with it if it was the last one there. */
    method Pop()
      requires Valid() && Items() != []
      modifies `front, `idxFront, `chunks, `destroyed, `freed
      ensures Valid() && Items() == old(Items())[1..]
      ensures old(Live()) != [] && destroyed == old(destroyed) + [old(Live())[0]]
      ensures chunks == old(chunks) || chunks == old(chunks)[1..]
      ensures Spent() <==> old(|chunks|) == 1 && old(idxFront) + 1 == chunkElements
    {
      hide Slots, Between, Chained, Row, IsPlaced, NoDup;
      Ends(this);
      LiveIsWindow(this);
      ghost var live := Live();
      FirstSlot(this);
      assert pushed == destroyed + [live[0]] + live[1..];
      destroyed := destroyed + [Slot(front, idxFront, front.data[idxFront])];
      idxFront := idxFront + 1;
      if idxFront == chunkElements {
        FreeFront();
        idxFront := 0;
      }
      if chunks != [] {
        LiveIsWindow(this);
      }
    }

    method FreeFront()
      requires Chained() && chunks != [] && made == freed + chunks
      modifies `front, `chunks, `freed
      ensures Chained() && chunks == old(chunks)[1..] && made == freed + chunks
      ensures |freed| * chunkElements == old(|freed|) * chunkElements + chunkElements
    {
      var dead := front;
      OneMore(|freed|, chunkElements);
      assert front.next == At(chunks, 1, null);
      front := front.next;
      assert freed + chunks == freed + [dead] + chunks[1..];
      assert forall i :: 0 < i < |chunks| ==> chunks[i].next == At(chunks[1..], i, null);
      chunks, freed := chunks[1..], freed + [dead];
    }

    /** Destroy the elements in the slots lo to hi of one chunk. */
    method DestroyRange(c: Chunk<T>, lo: nat, hi: nat)
      requires lo <= hi <= c.data.Length
      modifies `destroyed
      ensures destroyed == old(destroyed) + Row(c)[lo..hi]
    {
      var idx := lo;
      while idx < hi
        invariant lo <= idx <= hi
        invariant destroyed == old(destroyed) + Row(c)[lo..idx]
      {
        destroyed := destroyed + [Slot(c, idx, c.data[idx])];
        assert Row(c)[lo..idx + 1] == Row(c)[lo..idx] + [Row(c)[idx]];
        idx := idx + 1;
      }
    }

    /** The end of the queue. Every element ever pushed has then been destroyed exactly once; every chunk
        ever made has been freed exactly once, unless the newest element and the next to be popped share a
        chunk: then that chunk is never freed. */
    method Destroy()
      requires Valid()
      modifies `destroyed, `freed
      ensures multiset(destroyed) == multiset(pushed) && NoTwice(destroyed)
      ensures if Leaks(chunkElements, |pushed|, old(|destroyed|))
              then |made| > 0 && freed == made[..|made| - 1] else freed == made
      ensures NoDup(made)
    {
      hide Slots, Between, Chained, Row, IsPlaced, NoDup;
      Ends(this);
      LeakIff(this);
      PushedOnce(this);
      if front == null {
      } else if front == back {
        LiveIsWindow(this);
        SingleWindow(this);
        DestroyRange(front, idxFront, idxEnd);
        assert made[..|made| - 1] == freed;
      } else {
        LiveIsWindow(this);
        DestroyMany();
      }
      DestroyedOnce(pushed, destroyed);
    }

    /** Two or more chunks: first chunk, last chunk, the chunks between, and then all the memory. */
    method DestroyChunks()
      requires Fits() && |chunks| > 1
      requires front.data.Length == back.data.Length == chunkElements
      modifies `destroyed, `freed
      ensures destroyed == old(destroyed) + Row(front)[idxFront..chunkElements] + Row(back)[0..idxEnd]
                           + Slots(chunks[1..|chunks| - 1])
      ensures freed == old(freed) + chunks
    {
      hide Slots, Chained, Row;
      Ends(this);
      DestroyRange(front, idxFront, chunkElements);
      DestroyRange(back, 0, idxEnd);
      DestroyMiddle();
      FreeAll();
    }

    /** The same, told as what becomes of the elements pushed. */
    method DestroyMany()
      requires Fits() && |chunks| > 1 && pushed == destroyed + Window()
      modifies `destroyed, `freed
      ensures multiset(destroyed) == multiset(pushed)
      ensures freed == old(freed) + chunks
    {
      hide Slots, Between, Chained, Row;
      WindowPieces(this);
      ghost var o, m := destroyed, Slots(chunks[1..|chunks| - 1]);
      ghost var a, b := Row(front)[idxFront..chunkElements], Row(back)[0..idxEnd];
      DestroyChunks();
      Shuffled(o, a, m, b, destroyed, pushed);
    }

    method DestroyWhole(c: Chunk<T>)
      requires c.data.Length == chunkElements
      modifies `destroyed
      ensures destroyed == old(destroyed) + Row(c)
    {
      hide Row;
      DestroyRange(c, 0, chunkElements);
      assert Row(c)[0..chunkElements] == Row(c);
    }

    /** The loop over the chunks strictly between front and back. */
    method DestroyMiddle()
      requires Chained() && |chunks| > 1
      modifies `destroyed
      ensures destroyed == old(destroyed) + Slots(chunks[1..|chunks| - 1])
    {
      assert Slots(chunks[1..1]) == [];
      hide Slots, Row, Chained;
      ChunkAt(this, 0);
      var ptr := front.next;
      ghost var k := 1;
      while ptr != back
        invariant 1 <= k < |chunks| && ptr == chunks[k] && Chained()
        invariant destroyed == old(destroyed) + Slots(chunks[1..k])
        decreases |chunks| - k
      {
        ChunkAt(this, k);
        SlotsNext(chunks, k);
        Associative(old(destroyed), Slots(chunks[1..k]), Row(ptr));
        DestroyWhole(ptr);
        ptr := ptr.next;
        k := k + 1;
      }
      ChunkAt(this, k);
    }

    method FreeAll()
      requires Chained()
      modifies `freed
      ensures freed == old(freed) + chunks
    {
      var ptr := front;
      ghost var k := 0;
      while ptr != null
        invariant 0 <= k <= |chunks| && ptr == At(chunks, k, null)
        invariant freed == old(freed) + chunks[..k]
        decreases |chunks| - k
      {
        var dead := ptr;
        ptr := ptr.next;
        freed := freed + [dead];
        k := k + 1;
      }
    }
  }

  method StoreAt<T(0)>(c: Chunk<T>, i: nat, t: T, ghost others: seq<Chunk<T>>)
    requires i < c.data.Length && forall k :: 0 <= k < |others| ==> others[k].data != c.data
    modifies c.data
    ensures Row(c) == old(Row(c))[i := Slot(c, i, t)]
    ensures Slots(others) == old(Slots(others))
  {
    c.data[i] := t;
  }

  lemma BetweenStore<T>(p: seq<T>, d: seq<T>, f: nat, e: nat, t: T, s: seq<T>, s': seq<T>)
    requires 0 < e <= |d| && f + e <= |s|
    requires s == p + d && s' == p + d[|d| - e := t]
    ensures |s'| == |s| && Between(s', f, e - 1) == Between(s, f, e) + [t]
  {
  }

  lemma Ends<T(0)>(q: Queue<T>)
    requires q.Chained()
    ensures q.chunks != [] ==> q.front == q.chunks[0] && q.back == q.chunks[|q.chunks| - 1]
    ensures q.chunks != [] ==> q.back in q.chunks && q.back.data in q.Datas()
    ensures q.chunks == [] ==> q.front == null
    ensures q.chunks != [] ==> (q.front == q.back <==> |q.chunks| == 1)
  {
    assert q.chunks != [] ==> q.chunks[|q.chunks| - 1].data in q.Datas();
  }

  lemma SlotsNext<T(0)>(cs: seq<Chunk<T>>, k: nat)
    requires 1 <= k < |cs|
    ensures Slots(cs[1..k + 1]) == Slots(cs[1..k]) + Row(cs[k])
  {
    assert cs[1..k + 1] == cs[1..k] + [cs[k]];
    WindowSnoc(cs[1..k], cs[k]);
  }

  lemma ChunkAt<T(0)>(q: Queue<T>, k: nat)
    requires q.Chained() && k < |q.chunks|
    ensures q.chunks[k].next == At(q.chunks, k + 1, null) && q.chunks[k].data.Length == q.chunkElements
    ensures q.front == q.chunks[0]
    ensures q.chunks[k] == q.back <==> k == |q.chunks| - 1
  {
  }

  /** The oldest element and what is left when it goes. */
  lemma FirstSlot<T(0)>(q: Queue<T>)
    requires q.Fits() && q.Window() != []
    ensures q.front == q.chunks[0] && q.idxFront < q.front.data.Length
    ensures q.Window()[0] == Slot(q.front, q.idxFront, q.front.data[q.idxFront])
    ensures q.idxFront + 1 + (q.chunkElements - q.idxEnd) <= |Slots(q.chunks)|
    ensures q.Window()[1..] == Between(Slots(q.chunks), q.idxFront + 1, q.chunkElements - q.idxEnd)
    ensures |q.chunks| == 1 ==> q.idxFront < q.idxEnd
    ensures q.idxFront + 1 == q.chunkElements ==>
              && q.chunkElements - q.idxEnd <= |Slots(q.chunks[1..])|
              && q.Window()[1..] == Between(Slots(q.chunks[1..]), 0, q.chunkElements - q.idxEnd)
              && (|q.chunks| == 1 ==> q.Window()[1..] == [])
  {
    WindowFits(q);
    var e := q.chunkElements - q.idxEnd;
    assert Slots(q.chunks) == Row(q.front) + Slots(q.chunks[1..]);
    SlotsLength(q.chunks[1..], q.chunkElements);
    Multiples(|q.chunks| - 1, q.chunkElements);
  }

  lemma Shuffled<T>(o: seq<T>, a: seq<T>, m: seq<T>, b: seq<T>, l: seq<T>, r: seq<T>)
    requires l == o + a + b + m && r == o + (a + m + b)
    ensures multiset(l) == multiset(r)
  {
  }

  lemma SingleWindow<T(0)>(q: Queue<T>)
    requires q.Fits() && |q.chunks| == 1
    ensures q.front == q.chunks[0] && q.idxFront <= q.idxEnd <= q.front.data.Length
    ensures q.Window() == Row(q.front)[q.idxFront..q.idxEnd]
  {
    WindowFits(q);
    assert Slots(q.chunks) == Row(q.front) + Slots(q.chunks[1..]);
    assert q.chunks[1..] == [];
  }

  /** With two or more chunks: the rest of the first, the whole middle, the beginning of the last. */
  lemma WindowPieces<T(0)>(q: Queue<T>)
    requires q.Fits() && |q.chunks| > 1
    ensures q.front == q.chunks[0] && q.back == q.chunks[|q.chunks| - 1]
    ensures q.front.data.Length == q.back.data.Length == q.chunkElements
    ensures q.Window() == Row(q.front)[q.idxFront..q.chunkElements]
                        + Slots(q.chunks[1..|q.chunks| - 1]) + Row(q.back)[0..q.idxEnd]
  {
    var mid := q.chunks[1..|q.chunks| - 1];
    WindowFits(q);
    assert q.chunks == q.chunks[..|q.chunks| - 1] + [q.back];
    WindowSnoc(q.chunks[..|q.chunks| - 1], q.back);
    assert q.chunks[..|q.chunks| - 1][1..] == mid;
    assert Slots(q.chunks[..|q.chunks| - 1]) == Row(q.front) + Slots(mid);
    BetweenPieces(Row(q.front), Slots(mid), Row(q.back), q.idxFront, q.chunkElements - q.idxEnd);
  }

  lemma BetweenPieces<T>(a: seq<T>, m: seq<T>, b: seq<T>, f: nat, e: nat)
    requires f <= |a| && e <= |b|
    ensures Between(a + m + b, f, e) == a[f..] + m + b[..|b| - e]
  {
  }

  lemma LiveIsWindow<T(0)>(q: Queue<T>)
    requires q.Chained() && q.Indexed() && q.chunks != []
    ensures q.Fits() && q.Live() == q.Window()
  {
  }

  lemma LiveLength<T(0)>(q: Queue<T>)
    requires q.Chained() && q.Indexed() && q.chunks != []
    ensures |q.Items()| == (|q.chunks| - 1) * q.chunkElements + q.idxEnd - q.idxFront
  {
    hide Slots, Row;
    LiveIsWindow(q);
    WindowFits(q);
    OneMore(|q.chunks| - 1, q.chunkElements);
  }

  lemma WindowSnoc<T(0)>(cs: seq<Chunk<T>>, c: Chunk<T>)
    ensures Slots(cs + [c]) == Slots(cs) + Row(c)
  {
    SlotsConcat(cs, [c]);
    assert Slots([c]) == Row(c) + Slots([c][1..]);
  }

  lemma WindowFits<T(0)>(q: Queue<T>)
    requires q.Fits()
    ensures |Slots(q.chunks)| == |q.chunks| * q.chunkElements
    ensures q.idxFront + (q.chunkElements - q.idxEnd) <= |Slots(q.chunks)|
  {
    SlotsLength(q.chunks, q.chunkElements);
    Multiples(|q.chunks|, q.chunkElements);
  }

  // ---------- What the numbers of pushes and pops determine ----------

  /** The next push goes to the slot idxEnd of the last chunk made. */
  lemma PushPlace<T(0)>(q: Queue<T>)
    requires q.Fits() && q.pushed == q.destroyed + q.Window() && q.made == q.freed + q.chunks
    requires |q.destroyed| == |q.freed| * q.chunkElements + q.idxFront
    ensures |q.made| > 0 && q.made[|q.made| - 1] == q.back
    ensures |q.pushed| == (|q.made| - 1) * q.chunkElements + q.idxEnd
    ensures q.idxEnd < q.chunkElements ==>
              |q.pushed| / q.chunkElements == |q.made| - 1 && |q.pushed| % q.chunkElements == q.idxEnd
  {
    hide Slots, IsPlaced;
    WindowFits(q);
    PlaceSum(|q.freed|, |q.chunks|, q.chunkElements, q.idxFront, q.idxEnd);
    if q.idxEnd < q.chunkElements {
      DivModUnique(|q.pushed|, q.chunkElements, |q.made| - 1, q.idxEnd);
    }
  }

  lemma OneMore(n: nat, m: nat)
    ensures (n + 1) * m == n * m + m
  {
  }

  lemma PlaceSum(freed: nat, live: nat, size: nat, f: nat, e: nat)
    ensures freed * size + f + (live * size - f - (size - e)) == (freed + live - 1) * size + e
  {
  }

  lemma PlacedMore<T(0)>(size: nat, made: seq<Chunk<T>>, c: Chunk<T>, pushed: seq<Slot<T>>)
    requires size > 0 && IsPlaced(size, made, pushed)
    ensures IsPlaced(size, made + [c], pushed)
  {
    forall k | 0 <= k < |pushed| ensures InPlace(size, made + [c], pushed[k], k) {
      assert InPlace(size, made, pushed[k], k);
    }
  }

  lemma PlacedGrows<T(0)>(size: nat, made: seq<Chunk<T>>, pushed: seq<Slot<T>>, slot: Slot<T>)
    requires size > 0 && IsPlaced(size, made, pushed)
    requires InPlace(size, made, slot, |pushed|)
    ensures IsPlaced(size, made, pushed + [slot])
  {
  }

  /** No two pushes went to the same place. */
  ghost predicate NoTwice<T(0)>(log: seq<Slot<T>>) {
    forall i, j :: 0 <= i < j < |log| ==> log[i].chunk != log[j].chunk || log[i].idx != log[j].idx
  }

  lemma PushedOnce<T(0)>(q: Queue<T>)
    requires q.chunkElements > 0 && q.Placed() && NoDup(q.made)
    ensures NoTwice(q.pushed)
  {
    forall i, j | 0 <= i < j < |q.pushed|
      ensures q.pushed[i].chunk != q.pushed[j].chunk || q.pushed[i].idx != q.pushed[j].idx
    {
      SamePlace(i, j, q.chunkElements);
    }
  }

  lemma DestroyedOnce<T(0)>(built: seq<Slot<T>>, gone: seq<Slot<T>>)
    requires NoTwice(built) && multiset(gone) == multiset(built)
    ensures NoTwice(gone)
  {
    NoDupMultiset(built, gone);
    SameMembers(built, gone);
    forall i, j | 0 <= i < j < |gone| ensures gone[i].chunk != gone[j].chunk || gone[i].idx != gone[j].idx {
      assert gone[i] in built && gone[j] in built;
      var k, l :| 0 <= k < |built| && 0 <= l < |built| && built[k] == gone[i] && built[l] == gone[j];
    }
  }

  /** The pops have come to the chunk of the newest element and have not finished it. */
  predicate Leaks(chunkElements: nat, pushes: nat, pops: nat)
    requires chunkElements > 0
  {
    pushes > 0 && (pushes - 1) / chunkElements == pops / chunkElements
  }

  lemma NewestChunk<T(0)>(q: Queue<T>)
    requires q.Valid() && q.pushed != []
    ensures (|q.pushed| - 1) / q.chunkElements == |q.made| - 1
  {
    hide Slots, IsPlaced, Between, Row, NoDup;
    var ce, n := q.chunkElements, |q.made| - 1;
    if q.chunks != [] {
      PushPlace(q);
      DivModUnique(|q.pushed| - 1, ce, n, q.idxEnd - 1);
    } else {
      assert |q.made| == |q.freed|;
      assert (n + 1) * ce == n * ce + ce;
      DivModUnique(|q.pushed| - 1, ce, n, ce - 1);
    }
  }

  lemma OldestChunk<T(0)>(q: Queue<T>)
    requires q.Valid()
    ensures |q.destroyed| / q.chunkElements == |q.freed|
  {
    DivModUnique(|q.destroyed|, q.chunkElements, |q.freed|, q.idxFront);
  }

  lemma NoneMade<T(0)>(q: Queue<T>)
    requires q.Valid()
    ensures q.pushed == [] <==> q.made == []
  {
    hide Slots, IsPlaced, Between, Row, NoDup;
    if q.chunks != [] {
      PushPlace(q);
      Multiples(|q.made| - 1, q.chunkElements);
    } else {
      Multiples(|q.freed|, q.chunkElements);
    }
  }

  /** Exactly one chunk is left exactly then. */
  lemma LeakIff<T(0)>(q: Queue<T>)
    requires q.Valid()
    ensures |q.chunks| == 1 <==> Leaks(q.chunkElements, |q.pushed|, |q.destroyed|)
  {
    hide Slots, IsPlaced, Between, Row, NoDup;
    NoneMade(q);
    OldestChunk(q);
    if q.pushed != [] {
      NewestChunk(q);
    }
  }

  /** So a queue of any chunk size leaks after a single push. */
  lemma OnePushLeaks<T(0)>(q: Queue<T>)
    requires q.Valid() && |q.pushed| == 1 && q.destroyed == []
    ensures Leaks(q.chunkElements, |q.pushed|, |q.destroyed|) && |q.chunks| == 1
  {
    LeakIff(q);
  }

  /** When the last chunk is gone: everything pushed has been popped, and the pops fill whole chunks. */
  lemma SpentIff<T(0)>(q: Queue<T>)
    requires q.Valid()
    ensures q.Spent() <==> q.Items() == [] && q.destroyed != [] && |q.destroyed| % q.chunkElements == 0
  {
    EmptyTest(q);
    Ends(q);
    DivModUnique(|q.destroyed|, q.chunkElements, |q.freed|, q.idxFront);
    Multiples(|q.freed|, q.chunkElements);
  }

  lemma EmptyTest<T(0)>(q: Queue<T>)
    requires q.Chained() && q.Indexed()
    ensures q.Items() == [] <==> q.front == null || (q.front == q.back && q.idxFront == q.idxEnd)
  {
    if q.chunks != [] {
      WindowFits(q);
      Multiples(|q.chunks|, q.chunkElements);
      assert q.front == q.back <==> |q.chunks| == 1;
    }
  }

  // ---------- Runs ----------

  datatype Op<T> = PushOp(value: T) | PopOp

  /** Elements queued, and how many have been popped. */
  datatype Fifo<T> = Fifo(live: seq<T>, popped: nat)

  function Apply<T>(f: Fifo<T>, op: Op<T>): Fifo<T>
    requires op.PopOp? ==> f.live != []
  {
    match op
    case PushOp(x) => f.(live := f.live + [x])
    case PopOp => Fifo(f.live[1..], f.popped + 1)
  }

  /** Pops find an element, and no push comes after the pop that emptied the queue and its only chunk. */
  ghost predicate Safe<T>(f: Fifo<T>, chunkElements: nat, ops: seq<Op<T>>)
    requires chunkElements > 0
    decreases |ops|
  {
    ops == [] || (
      && (ops[0].PopOp? ==> f.live != [])
      && (ops[0].PushOp? ==> !(f.live == [] && f.popped > 0 && f.popped % chunkElements == 0))
      && Safe(Apply(f, ops[0]), chunkElements, ops[1..]))
  }

  function ApplyAll<T>(f: Fifo<T>, chunkElements: nat, ops: seq<Op<T>>): Fifo<T>
    requires chunkElements > 0 && Safe(f, chunkElements, ops)
    decreases |ops|
  {
    if ops == [] then f else ApplyAll(Apply(f, ops[0]), chunkElements, ops[1..])
  }

  ghost function Abstract<T(0)>(q: Queue<T>): Fifo<T>
    requires q.Valid()
    reads q, q.chunks, q.Datas()
  {
    Fifo(q.Items(), |q.destroyed|)
  }

  /** Any such run is a run of a first-in first-out queue, across all chunk boundaries. */
  method RunAll<T(0)>(q: Queue<T>, ops: seq<Op<T>>)
    requires q.Valid() && Safe(Abstract(q), q.chunkElements, ops)
    modifies q, q.chunks, q.Datas()
    ensures q.Valid() && Abstract(q) == ApplyAll(old(Abstract(q)), q.chunkElements, ops)
    decreases |ops|
  {
    if ops != [] {
      SpentIff(q);
      match ops[0] {
        case PushOp(x) => q.Push(x);
        case PopOp => q.Pop();
      }
      RunAll(q, ops[1..]);
    }
  }

  // ---------- A run that ends where no push is allowed ----------

  function Pushes<T>(xs: seq<T>): seq<Op<T>> {
    if xs == [] then [] else [PushOp(xs[0])] + Pushes(xs[1..])
  }

  function Pops<T>(n: nat): seq<Op<T>> {
    if n == 0 then [] else [PopOp] + Pops(n - 1)
  }

  lemma PushBefore<T>(f: Fifo<T>, chunkElements: nat, x: T, ops: seq<Op<T>>)
    requires chunkElements > 0 && f.popped == 0
    requires Safe(Fifo(f.live + [x], 0), chunkElements, ops)
    ensures Safe(f, chunkElements, [PushOp(x)] + ops)
    ensures ApplyAll(f, chunkElements, [PushOp(x)] + ops) == ApplyAll(Fifo(f.live + [x], 0), chunkElements, ops)
  {
    assert ([PushOp(x)] + ops)[1..] == ops;
  }

  lemma {:induction false} PushesFirst<T>(f: Fifo<T>, chunkElements: nat, xs: seq<T>, ops: seq<Op<T>>)
    requires chunkElements > 0 && f.popped == 0
    requires Safe(Fifo(f.live + xs, 0), chunkElements, ops)
    ensures Safe(f, chunkElements, Pushes(xs) + ops)
    ensures ApplyAll(f, chunkElements, Pushes(xs) + ops) == ApplyAll(Fifo(f.live + xs, 0), chunkElements, ops)
    decreases |xs|
  {
    hide Safe, ApplyAll;
    if xs == [] {
      assert f.live + xs == f.live && Pushes(xs) + ops == ops;
    } else {
      assert f.live + xs == f.live + [xs[0]] + xs[1..];
      PushesFirst(Apply(f, PushOp(xs[0])), chunkElements, xs[1..], ops);
      assert Pushes(xs) + ops == [PushOp(xs[0])] + (Pushes(xs[1..]) + ops);
      PushBefore(f, chunkElements, xs[0], Pushes(xs[1..]) + ops);
    }
  }

  lemma {:induction false} PopsDrop<T>(f: Fifo<T>, chunkElements: nat, n: nat)
    requires chunkElements > 0 && n <= |f.live|
    ensures Safe(f, chunkElements, Pops(n))
    ensures ApplyAll(f, chunkElements, Pops(n)) == Fifo(f.live[n..], f.popped + n)
    decreases n
  {
    if n > 0 {
      PopsDrop(Apply(f, PopOp), chunkElements, n - 1);
    }
  }

  /** First in, first out: after pushing xs and popping n the elements left are the last of all, in order. */
  lemma FirstInFirstOut<T>(live: seq<T>, chunkElements: nat, xs: seq<T>, n: nat)
    requires chunkElements > 0 && n <= |live| + |xs|
    ensures Safe(Fifo(live, 0), chunkElements, Pushes(xs) + Pops(n))
    ensures ApplyAll(Fifo(live, 0), chunkElements, Pushes(xs) + Pops(n)) == Fifo((live + xs)[n..], n)
  {
    PopsDrop(Fifo(live + xs, 0), chunkElements, n);
    PushesFirst(Fifo(live, 0), chunkElements, xs, Pops(n));
  }

  /** Filling one chunk and emptying it is a safe run of a new queue, and no push is safe after it. */
  lemma FillAndEmpty<T>(xs: seq<T>, x: T)
    requires xs != []
    ensures var ops := Pushes(xs) + Pops(|xs|);
      && Safe(Fifo([], 0), |xs|, ops)
      && ApplyAll(Fifo([], 0), |xs|, ops) == Fifo([], |xs|)
      && !Safe(Fifo([], |xs|), |xs|, [PushOp(x)])
  {
    FirstInFirstOut([], |xs|, xs, |xs|);
  }
}
