/** The first-fit page allocator: one list entry per free page, in address order, with the length of
    each block kept in the `property` of its first page. */
module PageAlloc {
  import opened Layout

  // ---- runs of consecutive pages --------------------------------------------------------------

  predicate Less(s: seq<nat>, i: int, j: int)
    requires 0 <= i < |s| && 0 <= j < |s|
  { s[i] < s[j] }

  ghost predicate Ascending(s: seq<nat>) { forall i, j {:trigger Less(s, i, j)} | 0 <= i < j < |s| :: Less(s, i, j) }

  lemma AscendingAt(s: seq<nat>, i: int, j: int)
    requires Ascending(s) && 0 <= i < |s| && 0 <= j < |s|
    ensures (s[i] < s[j] <==> i < j) && (s[i] == s[j] <==> i == j)
  { assert (i < j ==> Less(s, i, j)) && (j < i ==> Less(s, j, i)); }

  lemma AscendingParts(a: seq<nat>, b: seq<nat>)
    ensures Ascending(a + b) <==> Ascending(a) && Ascending(b) && (a == [] || b == [] || a[|a| - 1] < b[0])
  {
    var s := a + b;
    if Ascending(s) {
      forall i, j | 0 <= i < j < |a| ensures Less(a, i, j) { AscendingAt(s, i, j); }
      forall i, j | 0 <= i < j < |b| ensures Less(b, i, j) { AscendingAt(s, |a| + i, |a| + j); }
      if a != [] && b != [] { AscendingAt(s, |a| - 1, |a|); }
    } else if Ascending(a) && Ascending(b) && (a == [] || b == [] || a[|a| - 1] < b[0]) {
      forall i, j | 0 <= i < j < |s| ensures Less(s, i, j) {
        if j < |a| { AscendingAt(a, i, j); }
        else if i >= |a| { AscendingAt(b, i - |a|, j - |a|); }
        else { AscendingAt(a, i, |a| - 1); AscendingAt(b, 0, j - |a|); }
      }
    }
  }

  // How many consecutive pages start at index i.
  function Run(s: seq<nat>, i: nat): (r: nat)
    requires i < |s|
    ensures 1 <= r <= |s| - i
    decreases |s| - i
  {
    if i + 1 < |s| && s[i + 1] == s[i] + 1 then 1 + Run(s, i + 1) else 1
  }

  predicate Head(s: seq<nat>, i: nat)
    requires i < |s|
  { i == 0 || s[i - 1] + 1 != s[i] }

  function BlockLen(s: seq<nat>, i: nat): nat
    requires i < |s|
  { if Head(s, i) then Run(s, i) else 0 }

  predicate Marked(s: seq<nat>, prop: map<nat, nat>, i: nat)
    requires i < |s|
  { s[i] in prop && prop[s[i]] == BlockLen(s, i) }

  /** Blocks are maximal: `property` is the whole run at its first page and zero elsewhere. */
  ghost predicate Coalesced(s: seq<nat>, prop: map<nat, nat>) {
    forall i: nat {:trigger Marked(s, prop, i)} | i < |s| :: Marked(s, prop, i)
  }

  // b, b+1, ..., b+n-1 are all free.
  ghost predicate FreeRun(s: seq<nat>, b: nat, n: nat) { forall p: nat | b <= p < b + n :: p in s }

  // Whether the last page of `a` touches the first page of `b`.
  predicate Touch(a: seq<nat>, b: seq<nat>) { a != [] && b != [] && a[|a| - 1] + 1 == b[0] }

  lemma {:induction false} RunConcat(a: seq<nat>, b: seq<nat>, i: nat)
    requires i < |a| + |b|
    ensures Run(a + b, i) ==
            if i >= |a| then Run(b, i - |a|)
            else if i + Run(a, i) == |a| && Touch(a, b) then Run(a, i) + Run(b, 0)
            else Run(a, i)
    decreases |a| + |b| - i
  {
    if i + 1 < |a| + |b| { RunConcat(a, b, i + 1); }
  }

  lemma HeadConcat(a: seq<nat>, b: seq<nat>, i: nat)
    requires i < |a| + |b|
    ensures Head(a + b, i) == if i < |a| then Head(a, i) else if i == |a| then !Touch(a, b) else Head(b, i - |a|)
  { }

  lemma {:induction false} RunPages(s: seq<nat>, i: nat, t: nat)
    requires i < |s| && t < Run(s, i)
    ensures s[i + t] == s[i] + t && Run(s, i + t) == Run(s, i) - t
    decreases t
  {
    if t > 0 { RunPages(s, i + 1, t - 1); }
  }

  // The first page of the block that page i is in.
  function HeadOf(s: seq<nat>, i: nat): (h: nat)
    requires i < |s|
    ensures h <= i && Head(s, h)
  {
    if Head(s, i) then i else HeadOf(s, i - 1)
  }

  lemma {:induction false} HeadOfRun(s: seq<nat>, i: nat)
    requires i < |s|
    ensures HeadOf(s, i) + Run(s, HeadOf(s, i)) == i + Run(s, i)
    ensures forall j | HeadOf(s, i) < j <= i :: !Head(s, j)
  {
    if !Head(s, i) { HeadOfRun(s, i - 1); }
  }

  // ---- joining and cutting --------------------------------------------------------------------

  lemma SplitCoalesced(a: seq<nat>, b: seq<nat>, prop: map<nat, nat>)
    requires Coalesced(a + b, prop) && !Touch(a, b)
    ensures Coalesced(a, prop) && Coalesced(b, prop)
  {
    forall i: nat | i < |a| ensures Marked(a, prop, i) {
      RunConcat(a, b, i); HeadConcat(a, b, i);
      assert Marked(a + b, prop, i);
    }
    forall i: nat | i < |b| ensures Marked(b, prop, i) {
      RunConcat(a, b, |a| + i); HeadConcat(a, b, |a| + i);
      assert Marked(a + b, prop, |a| + i);
    }
  }

  lemma JoinApart(a: seq<nat>, b: seq<nat>, prop: map<nat, nat>)
    requires Coalesced(a, prop) && Coalesced(b, prop) && !Touch(a, b)
    ensures Coalesced(a + b, prop)
  {
    forall i: nat | i < |a + b| ensures Marked(a + b, prop, i) {
      RunConcat(a, b, i); HeadConcat(a, b, i);
      if i < |a| { assert Marked(a, prop, i); } else { assert Marked(b, prop, i - |a|); }
    }
  }

  // The property map after the block at page q is merged into the block at page p.
  function Merged(prop: map<nat, nat>, p: nat, q: nat): map<nat, nat>
    requires p in prop && q in prop
  { prop[p := prop[p] + prop[q]][q := 0] }

  lemma JoinTouching(a: seq<nat>, b: seq<nat>, prop: map<nat, nat>)
    requires Ascending(a + b) && Coalesced(a, prop) && Coalesced(b, prop) && Touch(a, b)
    ensures var h := HeadOf(a, |a| - 1);
            a[h] in prop && b[0] in prop && Coalesced(a + b, Merged(prop, a[h], b[0]))
  {
    var h := HeadOf(a, |a| - 1);
    HeadOfRun(a, |a| - 1);
    assert Marked(a, prop, h) && Marked(b, prop, 0);
    forall i: nat | i < |a + b| ensures Marked(a + b, Merged(prop, a[h], b[0]), i) { JoinedAt(a, b, prop, i); }
  }

  lemma JoinedAt(a: seq<nat>, b: seq<nat>, prop: map<nat, nat>, i: nat)
    requires Ascending(a + b) && Coalesced(a, prop) && Coalesced(b, prop) && Touch(a, b) && i < |a + b|
    requires var h := HeadOf(a, |a| - 1); Marked(a, prop, h) && Marked(b, prop, 0)
    ensures Marked(a + b, Merged(prop, a[HeadOf(a, |a| - 1)], b[0]), i)
  {
    var h := HeadOf(a, |a| - 1);
    HeadOfRun(a, |a| - 1);
    hide HeadOf, Run, Head;
    RunConcat(a, b, i);
    HeadConcat(a, b, i);
    AscendingAt(a + b, i, h);
    AscendingAt(a + b, i, |a|);
    if i < |a| {
      assert Marked(a, prop, i);
      if i < h { EarlierHead(a, i, h); }
    } else {
      assert Marked(b, prop, i - |a|);
    }
  }

  // The run of an earlier page ends before a later block starts.
  lemma EarlierHead(a: seq<nat>, i: nat, h: nat)
    requires i < h < |a| && Head(a, h)
    ensures i + Run(a, i) <= h
  {
    if i + Run(a, i) > h { RunPages(a, i, h - i - 1); RunPages(a, i, h - i); }
  }

  // A list without the first n pages of the block at index i.
  function Taken(s: seq<nat>, i: nat, n: nat): seq<nat>
    requires i + n <= |s|
  { s[..i] + s[i + n..] }

  function TakenProp(s: seq<nat>, prop: map<nat, nat>, i: nat, n: nat): map<nat, nat>
    requires i < |s| && s[i] in prop && n <= prop[s[i]]
    requires prop[s[i]] > n ==> i + n < |s|
  { if prop[s[i]] > n then prop[s[i + n] := prop[s[i]] - n] else prop }

  lemma TakeFirst(s: seq<nat>, prop: map<nat, nat>, i: nat, n: nat)
    requires Ascending(s) && Coalesced(s, prop) && i < |s| && Head(s, i) && 0 < n <= Run(s, i)
    ensures s[i] in prop && prop[s[i]] == Run(s, i)
    ensures Ascending(Taken(s, i, n)) && Coalesced(Taken(s, i, n), TakenProp(s, prop, i, n))
  {
    hide Run, Head, Ascending;
    assert Marked(s, prop, i);
    var a, c, d := s[..i], s[i..i + n], s[i + n..];
    assert s == a + (c + d);
    TakeMiddle(a, c, d, prop);
  }

  lemma TakeMiddle(a: seq<nat>, c: seq<nat>, d: seq<nat>, prop: map<nat, nat>)
    requires Ascending(a + (c + d)) && Coalesced(a + (c + d), prop) && c != []
    requires Head(a + (c + d), |a|) && |c| <= Run(a + (c + d), |a|)
    ensures Ascending(a + d)
    ensures var r := Run(a + (c + d), |a|);
            if r > |c| then d != [] && Coalesced(a + d, prop[d[0] := r - |c|]) else Coalesced(a + d, prop)
  {
    hide Run, Head, Ascending;
    var b := c + d;
    HeadConcat(a, b, |a|);
    SplitCoalesced(a, b, prop);
    RunConcat(a, b, |a|);
    Parts(a, c, d);
    DropFirst(c, d, prop);
    var r := Run(b, 0);
    var prop' := if r > |c| then prop[d[0] := r - |c|] else prop;
    forall j: nat | j < |a| ensures Marked(a, prop', j) { assert Marked(a, prop, j); }
    JoinApart(a, d, prop');
  }

  // Ascending parts stay ascending without the middle one, and do not touch.
  lemma Parts(a: seq<nat>, c: seq<nat>, d: seq<nat>)
    requires Ascending(a + (c + d)) && c != []
    ensures Ascending(a + d) && Ascending(c + d) && !Touch(a, d)
    ensures d != [] ==> forall j | 0 <= j < |a| :: a[j] < d[0]
  {
    AscendingParts(a, c + d);
    AscendingParts(c, d);
    if d != [] {
      AscendingAt(c + d, 0, |c|);
      forall j | 0 <= j < |a| ensures a[j] < c[0] { AscendingAt(a, j, |a| - 1); }
    }
    AscendingParts(a, d);
  }

  lemma DropFirst(c: seq<nat>, d: seq<nat>, prop: map<nat, nat>)
    requires Ascending(c + d) && Coalesced(c + d, prop) && c != [] && |c| <= Run(c + d, 0)
    ensures var r := Run(c + d, 0);
            if r > |c| then d != [] && Coalesced(d, prop[d[0] := r - |c|]) else Coalesced(d, prop)
  {
    hide Run, Head, Ascending, Marked;
    var r := Run(c + d, 0);
    RunConcat(c, d, 0);
    var prop' := if r > |c| then prop[d[0] := r - |c|] else prop;
    forall j: nat | j < |d| ensures Marked(d, prop', j) { DroppedAt(c, d, prop, j); }
  }

  lemma DroppedAt(c: seq<nat>, d: seq<nat>, prop: map<nat, nat>, j: nat)
    requires Ascending(c + d) && Coalesced(c + d, prop) && c != [] && |c| <= Run(c + d, 0) && j < |d|
    ensures var r := Run(c + d, 0); Marked(d, if r > |c| then prop[d[0] := r - |c|] else prop, j)
  {
    hide Run, Ascending;
    assert Marked(c + d, prop, |c| + j);
    RunConcat(c, d, |c| + j);
    HeadConcat(c, d, |c| + j);
    AscendingAt(c + d, |c|, |c| + j);
    RunConcat(c, d, 0);
  }

  // ---- completeness ---------------------------------------------------------------------------

  lemma {:induction false} FreeRunLong(s: seq<nat>, j: nat, n: nat)
    requires Ascending(s) && j < |s| && n > 0 && FreeRun(s, s[j], n)
    ensures Run(s, j) >= n
    decreases n
  {
    if n > 1 {
      assert s[j] + 1 in s;
      var k :| 0 <= k < |s| && s[k] == s[j] + 1;
      AscendingAt(s, j, k);
      AscendingAt(s, j, j + 1);
      AscendingAt(s, j + 1, k);
      FreeRunLong(s, j + 1, n - 1);
    }
  }

  /** n consecutive pages are free exactly if some block has n pages, and the lowest such run starts
      a block. */
  lemma LowestRun(s: seq<nat>, n: nat, b: nat) returns (h: nat)
    requires Ascending(s) && n > 0 && FreeRun(s, b, n)
    ensures h < |s| && BlockLen(s, h) >= n && s[h] <= b && n <= |s|
  {
    assert b in s;
    var j :| 0 <= j < |s| && s[j] == b;
    FreeRunLong(s, j, n);
    h := HeadOf(s, j);
    HeadOfRun(s, j);
    AscendingAt(s, h, j);
  }

  lemma BlockFree(s: seq<nat>, i: nat, n: nat)
    requires i < |s| && n <= Run(s, i)
    ensures FreeRun(s, s[i], n)
  {
    forall p: nat | s[i] <= p < s[i] + n ensures p in s { RunPages(s, i, p - s[i]); }
  }

  // ---- ranges ---------------------------------------------------------------------------------

  function Range(base: nat, n: nat): seq<nat> { seq(n, (i: nat) => base + i) }

  lemma {:induction false} RangeRun(base: nat, n: nat, i: nat)
    requires i < n
    ensures Run(Range(base, n), i) == n - i && Head(Range(base, n), i) == (i == 0)
    decreases n - i
  {
    if i + 1 < n { RangeRun(base, n, i + 1); }
  }

  lemma RangeCoalesced(base: nat, n: nat, prop: map<nat, nat>)
    requires n > 0 && base in prop && prop[base] == n && forall k | base < k < base + n :: k in prop && prop[k] == 0
    ensures Coalesced(Range(base, n), prop)
  {
    forall i: nat | i < n ensures Marked(Range(base, n), prop, i) { RangeRun(base, n, i); }
  }

  lemma RangeAscending(base: nat, n: nat)
    ensures Ascending(Range(base, n))
  {
    forall i, j | 0 <= i < j < n ensures Less(Range(base, n), i, j) { }
  }

  // ---- freeing --------------------------------------------------------------------------------

  function Freed(a: seq<nat>, base: nat, n: nat, b: seq<nat>): seq<nat> { a + (Range(base, n) + b) }

  // The block at `base`, with the block that follows it.
  function MergedRight(prop: map<nat, nat>, base: nat, n: nat, b: seq<nat>): map<nat, nat>
    requires b != [] ==> b[0] in prop
  {
    var prop1 := prop[base := n];
    if b != [] && base + n == b[0] then Merged(prop1, base, b[0]) else prop1
  }

  function MergedLeft(a: seq<nat>, prop: map<nat, nat>, base: nat): map<nat, nat>
    requires base in prop && (a != [] ==> a[HeadOf(a, |a| - 1)] in prop)
  {
    if a != [] && a[|a| - 1] + 1 == base then Merged(prop, a[HeadOf(a, |a| - 1)], base) else prop
  }

  // The range to be freed lies between the pages of `a` and those of `b`.
  ghost predicate Between(a: seq<nat>, base: nat, n: nat, b: seq<nat>) {
    (a == [] || a[|a| - 1] < base) && (b == [] || base + n <= b[0])
  }

  lemma FreeRight(a: seq<nat>, base: nat, n: nat, b: seq<nat>, prop: map<nat, nat>)
    requires n > 0 && Ascending(a + b) && Coalesced(a + b, prop) && Between(a, base, n, b)
    requires forall k | base < k < base + n :: k in prop && prop[k] == 0
    ensures b != [] ==> b[0] in prop
    ensures Ascending(Range(base, n) + b)
    ensures var prop2 := MergedRight(prop, base, n, b);
            Coalesced(a, prop2) && Coalesced(Range(base, n) + b, prop2) && base in prop2
  {
    var r, prop1 := Range(base, n), prop[base := n];
    AscendingParts(a, b);
    SplitCoalesced(a, b, prop);
    RangeCoalesced(base, n, prop1);
    RangeAscending(base, n);
    AscendingParts(r, b);
    if b != [] { assert Marked(b, prop, 0); }
    OtherPages(a, prop, prop1, base, base);
    OtherPages(b, prop, prop1, base, base);
    if Touch(r, b) {
      HeadOfRange(base, n);
      JoinTouching(r, b, prop1);
      OtherPages(a, prop1, Merged(prop1, base, b[0]), base, b[0]);
    } else {
      JoinApart(r, b, prop1);
    }
  }

  lemma HeadOfRange(base: nat, n: nat)
    requires n > 0
    ensures HeadOf(Range(base, n), n - 1) == 0
  {
    RangeRun(base, n, HeadOf(Range(base, n), n - 1));
  }

  // Changing the property of pages outside a list does not matter to it.
  lemma OtherPages(a: seq<nat>, prop: map<nat, nat>, prop': map<nat, nat>, x: nat, y: nat)
    requires Coalesced(a, prop) && Ascending(a)
    requires forall p | p in prop && p != x && p != y :: p in prop' && prop'[p] == prop[p]
    requires (a == [] || a[|a| - 1] < x || x < a[0]) && (a == [] || a[|a| - 1] < y || y < a[0])
    ensures Coalesced(a, prop')
  {
    forall i: nat | i < |a| ensures Marked(a, prop', i) {
      assert Marked(a, prop, i);
      AscendingAt(a, i, |a| - 1);
      AscendingAt(a, 0, i);
    }
  }

  /** Freeing a range keeps the list ascending and maximally coalesced. */
  lemma FreeJoins(a: seq<nat>, base: nat, n: nat, b: seq<nat>, prop: map<nat, nat>)
    requires n > 0 && Ascending(a + b) && Coalesced(a + b, prop) && Between(a, base, n, b)
    requires forall k | base < k < base + n :: k in prop && prop[k] == 0
    ensures b != [] ==> b[0] in prop
    ensures var prop2 := MergedRight(prop, base, n, b);
            && base in prop2 && (a != [] ==> a[HeadOf(a, |a| - 1)] in prop2)
            && Ascending(Freed(a, base, n, b)) && Coalesced(Freed(a, base, n, b), MergedLeft(a, prop2, base))
  {
    hide Run, Head, Ascending;
    FreeRight(a, base, n, b, prop);
    AscendingParts(a, b);
    var rb, prop2 := Range(base, n) + b, MergedRight(prop, base, n, b);
    assert rb[0] == base;
    AscendingParts(a, rb);
    if a != [] { assert Marked(a, prop2, HeadOf(a, |a| - 1)); }
    if Touch(a, rb) { JoinTouching(a, rb, prop2); } else { JoinApart(a, rb, prop2); }
  }

  // ---- the allocator --------------------------------------------------------------------------

  // A range handed out earlier: none of it is free, and no page but the first may look like a block.
  ghost predicate Owned(s: seq<nat>, prop: map<nat, nat>, b: nat, n: nat) {
    && n > 0
    && forall p | b <= p < b + n :: p in prop && p !in s && (p != b ==> prop[p] == 0)
  }

  predicate Apart(b: nat, n: nat, c: nat, m: nat) { b + n <= c || c + m <= b }

  ghost predicate Sound(s: seq<nat>, prop: map<nat, nat>, allocs: map<nat, nat>) {
    && Ascending(s) && Coalesced(s, prop)
    && (forall b {:trigger b in allocs} | b in allocs :: Owned(s, prop, b, allocs[b]))
    && (forall b, c {:trigger b in allocs, c in allocs} | b in allocs && c in allocs
        && b != c :: Apart(b, allocs[b], c, allocs[c]))
  }

  // The pages handed out.
  ghost predicate Used(allocs: map<nat, nat>, p: nat) { exists b :: b in allocs && b <= p < b + allocs[b] }

  /** A page the allocator answers for: free or handed out. */
  ghost predicate Managed(s: seq<nat>, allocs: map<nat, nat>, p: nat) { p in s || Used(allocs, p) }

  lemma HandedOut(s: seq<nat>, s': seq<nat>, allocs: map<nat, nat>, b: nat, n: nat)
    requires b !in allocs && FreeRun(s, b, n) && forall p: nat :: p in s' <==> p in s && !(b <= p < b + n)
    ensures forall p: nat :: Managed(s', allocs[b := n], p) <==> Managed(s, allocs, p)
  {
    var allocs' := allocs[b := n];
    forall p: nat ensures Managed(s', allocs', p) <==> Managed(s, allocs, p) {
      if Used(allocs, p) {
        var c :| c in allocs && c <= p < c + allocs[c];
        assert c in allocs' && allocs'[c] == allocs[c];
      }
      if b <= p < b + n { assert b in allocs' && p in s; }
    }
  }

  lemma GivenBack(s: seq<nat>, s': seq<nat>, prop: map<nat, nat>, allocs: map<nat, nat>, b: nat)
    requires b in allocs && Owned(s, prop, b, allocs[b])
    requires forall p: nat :: p in s' <==> p in s || b <= p < b + allocs[b]
    ensures forall p: nat :: Managed(s', allocs - {b}, p) <==> Managed(s, allocs, p)
  {
    var rest := allocs - {b};
    assert rest[b := allocs[b]] == allocs;
    HandedOut(s', s, rest, b, allocs[b]);
  }

  lemma TakenPages(s: seq<nat>, i: nat, n: nat)
    requires Ascending(s) && i < |s| && 0 < n <= Run(s, i)
    ensures forall p: nat :: p in Taken(s, i, n) <==> p in s && !(s[i] <= p < s[i] + n)
  {
    var a, c, d := s[..i], s[i..i + n], s[i + n..];
    assert s == a + (c + d) && Taken(s, i, n) == a + d;
    PartsBefore(s, i);
    PartTaken(s, i, n, c);
    PartsAfter(s, i, n, d);
    hide Ascending, Run;
    forall p: nat ensures p in a + d <==> p in s && !(s[i] <= p < s[i] + n) {
      assert p in s <==> p in a || p in c || p in d;
    }
  }

  lemma PartsBefore(s: seq<nat>, i: nat)
    requires Ascending(s) && i < |s|
    ensures forall p | p in s[..i] :: p < s[i]
  {
    forall p | p in s[..i] ensures p < s[i] {
      var j :| 0 <= j < i && s[j] == p;
      AscendingAt(s, j, i);
    }
  }

  lemma PartTaken(s: seq<nat>, i: nat, n: nat, c: seq<nat>)
    requires i < |s| && 0 < n <= Run(s, i) && c == s[i..i + n]
    ensures forall p: nat :: p in c <==> s[i] <= p < s[i] + n
  {
    forall t | 0 <= t < n ensures c[t] == s[i] + t { RunPages(s, i, t); }
    forall p: nat | s[i] <= p < s[i] + n ensures p in c { assert c[p - s[i]] == p; }
  }

  lemma PartsAfter(s: seq<nat>, i: nat, n: nat, d: seq<nat>)
    requires Ascending(s) && i < |s| && 0 < n <= Run(s, i) && d == s[i + n..]
    ensures forall p | p in d :: p >= s[i] + n
  {
    RunPages(s, i, n - 1);
    forall p | p in d ensures p >= s[i] + n {
      var j :| 0 <= j < |d| && d[j] == p;
      AscendingAt(s, i + n - 1, i + n + j);
    }
  }

  lemma TakenOwned(s: seq<nat>, prop: map<nat, nat>, i: nat, n: nat)
    requires Ascending(s) && Coalesced(s, prop) && i < |s| && Head(s, i) && 0 < n <= Run(s, i)
    requires s[i] in prop && prop[s[i]] == Run(s, i)
    ensures Owned(Taken(s, i, n), TakenProp(s, prop, i, n), s[i], n)
  {
    TakenPages(s, i, n);
    var prop' := TakenProp(s, prop, i, n);
    forall p | s[i] <= p < s[i] + n ensures p in prop' && (p != s[i] ==> prop'[p] == 0) {
      var t := p - s[i];
      RunPages(s, i, t);
      assert Marked(s, prop, i + t);
      if t > 0 { RunPages(s, i, t - 1); }
      if prop[s[i]] > n { AscendingAt(s, i + t, i + n); }
    }
  }

  lemma ValidTaken(s: seq<nat>, prop: map<nat, nat>, allocs: map<nat, nat>, i: nat, n: nat)
    requires Sound(s, prop, allocs) && i < |s| && Head(s, i) && 0 < n <= Run(s, i)
    ensures s[i] in prop && prop[s[i]] == Run(s, i)
    ensures Sound(Taken(s, i, n), TakenProp(s, prop, i, n), allocs[s[i] := n])
    ensures s[i] !in allocs
  {
    TakeFirst(s, prop, i, n);
    TakenOwned(s, prop, i, n);
    TakenPages(s, i, n);
    BlockFree(s, i, n);
    assert s[i] !in allocs;
    var s', prop' := Taken(s, i, n), TakenProp(s, prop, i, n);
    assert prop[s[i]] > n ==> s[i + n] in s;
    hide Run, Head, Taken, Ascending;
    forall b | b in allocs ensures Owned(s', prop', b, allocs[b]) && Apart(b, allocs[b], s[i], n) {
      assert Owned(s, prop, b, allocs[b]);
      NotInside(s, prop, b, allocs[b], s[i], n);
    }
  }

  // A free range and an allocated one do not overlap.
  lemma NotInside(s: seq<nat>, prop: map<nat, nat>, b: nat, m: nat, p: nat, n: nat)
    requires Owned(s, prop, b, m) && FreeRun(s, p, n) && n > 0
    ensures Apart(b, m, p, n)
  {
    var x := if b <= p then p else b;
    assert b <= x < b + m ==> x !in s;
    assert p <= x < p + n ==> x in s;
  }

  lemma FreedPages(a: seq<nat>, base: nat, n: nat, b: seq<nat>)
    ensures forall p: nat :: p in Freed(a, base, n, b) <==> p in a + b || base <= p < base + n
  {
    forall p: nat | base <= p < base + n ensures p in Range(base, n) { assert Range(base, n)[p - base] == p; }
  }

  lemma ValidFreed(a: seq<nat>, base: nat, n: nat, b: seq<nat>, prop: map<nat, nat>, allocs: map<nat, nat>)
    requires Sound(a + b, prop, allocs) && base in allocs && allocs[base] == n && Between(a, base, n, b)
    ensures n > 0 && (b != [] ==> b[0] in prop)
    ensures var prop2 := MergedRight(prop, base, n, b);
            && base in prop2 && (a != [] ==> a[HeadOf(a, |a| - 1)] in prop2)
            && Sound(Freed(a, base, n, b), MergedLeft(a, prop2, base), allocs - {base})
  {
    assert Owned(a + b, prop, base, n);
    FreeJoins(a, base, n, b, prop);
    FreedPages(a, base, n, b);
    var prop2 := MergedRight(prop, base, n, b);
    var prop3 := MergedLeft(a, prop2, base);
    var s := Freed(a, base, n, b);
    assert b != [] ==> (a + b)[|a|] == b[0];
    assert a != [] ==> (a + b)[HeadOf(a, |a| - 1)] == a[HeadOf(a, |a| - 1)];
    hide HeadOf, Run, Head, Freed, Ascending;
    forall c | c in allocs - {base} ensures Owned(s, prop3, c, allocs[c]) {
      assert Owned(a + b, prop, c, allocs[c]) && Apart(base, n, c, allocs[c]);
    }
  }

  // A block of at least n pages that the first i entries do not start.
  lemma NoLongBlock(s: seq<nat>, prop: map<nat, nat>, n: nat, i: nat)
    requires Ascending(s) && Coalesced(s, prop) && n > 0 && i <= |s|
    requires n > |s| || (i == |s| && forall j: nat {:trigger BlockLen(s, j)} | j < i :: BlockLen(s, j) < n)
    ensures forall b: nat :: !FreeRun(s, b, n)
  {
    forall b: nat ensures !FreeRun(s, b, n) {
      if FreeRun(s, b, n) {
        var h := LowestRun(s, n, b);
      }
    }
  }

  // The first block of at least n pages holds the lowest run of n pages.
  lemma Found(s: seq<nat>, prop: map<nat, nat>, i: nat, n: nat)
    requires Ascending(s) && Coalesced(s, prop) && n > 0 && i < |s| && s[i] in prop && prop[s[i]] >= n
    requires forall j: nat {:trigger BlockLen(s, j)} | j < i :: BlockLen(s, j) < n
    ensures Head(s, i) && n <= Run(s, i) && FreeRun(s, s[i], n)
    ensures forall b: nat | b < s[i] :: !FreeRun(s, b, n)
  {
    assert Marked(s, prop, i);
    BlockFree(s, i, n);
    forall b: nat | b < s[i] ensures !FreeRun(s, b, n) {
      if FreeRun(s, b, n) {
        var h := LowestRun(s, n, b);
        AscendingAt(s, h, i);
      }
    }
  }

  // Where the pages of an allocated range go: the free pages before it and after it.
  lemma SplitPlace(a: seq<nat>, b: seq<nat>, prop: map<nat, nat>, allocs: map<nat, nat>, base: nat)
    requires Sound(a + b, prop, allocs) && base in allocs
    requires (a == [] || a[|a| - 1] <= base) && (b == [] || base < b[0])
    ensures Between(a, base, allocs[base], b)
  {
    var n := allocs[base];
    assert Owned(a + b, prop, base, n);
    assert base !in a + b;
    assert a != [] ==> a[|a| - 1] == (a + b)[|a| - 1];
    if b != [] { assert (a + b)[|a|] == b[0] && b[0] in a + b; }
  }

  // A region below the last page, or right after it, breaks the order or the blocks.
  lemma RegionMisplaced(s: seq<nat>, base: nat, n: nat, prop: map<nat, nat>)
    requires n > 0 && s != [] && base <= s[|s| - 1] + 1 && base in prop && prop[base] == n
    ensures !(Ascending(s + Range(base, n)) && Coalesced(s + Range(base, n), prop))
  {
    var t := s + Range(base, n);
    assert t[|s|] == base && t[|s| - 1] == s[|s| - 1];
    if Ascending(t) {
      AscendingAt(t, |s| - 1, |s|);
      assert !Marked(t, prop, |s|);
    }
  }

  lemma RegionAdded(s: seq<nat>, base: nat, n: nat, prop: map<nat, nat>, prop': map<nat, nat>, allocs: map<nat, nat>)
    requires Sound(s, prop, allocs) && n > 0 && (s == [] || s[|s| - 1] + 1 < base)
    requires forall b | b in allocs :: Apart(b, allocs[b], base, n)
    requires forall q :: q in prop' <==> q in prop || base <= q < base + n
    requires forall q | q in prop' :: prop'[q] == if q == base then n else if base < q < base + n then 0 else prop[q]
    ensures Sound(s + Range(base, n), prop', allocs)
  {
    var r := Range(base, n);
    RangeAscending(base, n);
    RangeCoalesced(base, n, prop');
    AscendingParts(s, r);
    forall i: nat | i < |s| ensures Marked(s, prop', i) { assert Marked(s, prop, i); AscendingAt(s, i, |s| - 1); }
    JoinApart(s, r, prop');
    hide Ascending;
    forall b | b in allocs ensures Owned(s + r, prop', b, allocs[b]) {
      assert Owned(s, prop, b, allocs[b]) && Apart(b, allocs[b], base, n);
    }
  }

  class PageAllocator {
    var list: seq<nat>
    var property: map<nat, nat>
    var nrFree: nat
    ghost var allocs: map<nat, nat>

    ghost predicate Valid()
      reads this
    {
      Sound(list, property, allocs) && nrFree == |list|
    }

    constructor ()
      ensures Valid() && list == [] && allocs == map[]
    {
      list, property, nrFree, allocs := [], map[], 0, map[];
    }

    /** default_init_memmap for pages that are not managed yet.  The region goes to the end of the list
        unmerged, which leaves the list in order and coalesced exactly when the region lies above the
        last one and does not touch it. */
    method InitMemmap(base: nat, n: nat)
      requires Valid() && n > 0 && forall p | base <= p < base + n :: p !in list
      requires forall b | b in allocs :: Apart(b, allocs[b], base, n)
      modifies this
      ensures list == old(list) + Range(base, n) && allocs == old(allocs) && nrFree == old(nrFree) + n
      ensures Valid() <==> old(list) == [] || old(list)[|old(list)| - 1] + 1 < base
    {
      ghost var s, prop := list, property;
      var p := base;
      while p != base + n
        invariant base <= p <= base + n && list == s + Range(base, p - base) && nrFree == |s|
        invariant forall q :: q in property <==> q in prop || base <= q < p
        invariant forall q | q in property :: property[q] == if base <= q < p then 0 else prop[q]
        invariant allocs == old(allocs)
      {
        property := property[p := 0];
        list := list + [p];
        assert Range(base, p - base) + [p] == Range(base, p + 1 - base);
        p := p + 1;
      }
      nrFree := nrFree + n;
      property := property[base := n];
      if s == [] || s[|s| - 1] + 1 < base {
        RegionAdded(s, base, n, prop, property, allocs);
      } else {
        RegionMisplaced(s, base, n, property);
      }
    }

    /** default_alloc_pages returns the lowest run of n free pages, and NULL exactly when there is
        none. */
    method AllocPages(n: nat) returns (r: Option<nat>)
      requires Valid() && n > 0
      modifies this
      ensures Valid()
      ensures r.None? ==> unchanged(this) && forall b: nat :: !FreeRun(list, b, n)
      ensures r.Some? ==>
        && FreeRun(old(list), r.value, n) && (forall b: nat | b < r.value :: !FreeRun(old(list), b, n))
        && (forall p: nat :: p in list <==> p in old(list) && !(r.value <= p < r.value + n))
        && nrFree == old(nrFree) - n && r.value !in old(allocs) && allocs == old(allocs)[r.value := n]
      ensures forall p: nat :: Managed(list, allocs, p) <==> Managed(old(list), old(allocs), p)
    {
      ghost var s := list;
      if n > nrFree { NoLongBlock(s, property, n, 0); return None; }
      var i := 0;
      while i < |list|
        invariant 0 <= i <= |list| && unchanged(this)
        invariant forall j: nat {:trigger BlockLen(s, j)} | j < i :: BlockLen(s, j) < n
      {
        assert Marked(s, property, i);
        var p := list[i];
        if property[p] >= n {
          Found(s, property, i, n);
          Take(i, n);
          HandedOut(s, list, old(allocs), p, n);
          return Some(p);
        }
        i := i + 1;
      }
      NoLongBlock(s, property, n, |s|);
      r := None;
    }

    // The first n pages of the block at index i leave the list.
    method Take(i: nat, n: nat)
      requires Valid() && i < |list| && Head(list, i) && 0 < n <= Run(list, i)
      modifies this
      ensures Valid() && list == Taken(old(list), i, n) && nrFree == old(nrFree) - n
      ensures old(list[i]) !in old(allocs) && allocs == old(allocs)[old(list[i]) := n]
      ensures forall p: nat :: p in list <==> p in old(list) && !(old(list[i]) <= p < old(list[i]) + n)
    {
      ghost var s, prop := list, property;
      ValidTaken(s, prop, allocs, i, n);
      TakenPages(s, i, n);
      var p, t := list[i], 0;
      while t < n
        invariant 0 <= t <= n && list == s[..i] + s[i + t..] && property == prop && allocs == old(allocs)
            && nrFree == old(nrFree)
      {
        ghost var before := list;
        list := list[..i] + list[i + 1..];
        assert before[..i] == s[..i] && before[i + 1..] == s[i + t + 1..];
        t := t + 1;
      }
      if property[p] > n { property := property[list[i] := property[p] - n]; }
      nrFree := nrFree - n;
      allocs := allocs[p := n];
    }

    /** default_free_pages on a range that one allocation handed out. */
    method FreePages(base: nat, n: nat)
      requires Valid() && base in allocs && allocs[base] == n
      modifies this
      ensures Valid() && nrFree == old(nrFree) + n && allocs == old(allocs) - {base}
      ensures forall p: nat :: p in list <==> p in old(list) || base <= p < base + n
      ensures forall p: nat :: Managed(list, allocs, p) <==> Managed(old(list), old(allocs), p)
    {
      ghost var s, prop := list, property;
      var k := 0;
      while k < |list| && list[k] <= base
        invariant 0 <= k <= |list| && unchanged(this) && (k == 0 || list[k - 1] <= base)
      {
        k := k + 1;
      }
      ghost var a, b := s[..k], s[k..];
      assert s == a + b;
      assert Owned(s, prop, base, n);
      SplitPlace(a, b, property, allocs, base);
      ValidFreed(a, base, n, b, prop, allocs);
      FreedPages(a, base, n, b);
      FreeRight(a, base, n, b, prop);
      MergeRight(k, base, n);
      assert list[..k] == a;
      if k > 0 && list[k - 1] + 1 == base { MergeBack(k, a, base); }
      nrFree := nrFree + n;
      allocs := allocs - {base};
      GivenBack(s, list, prop, old(allocs), base);
    }

    // The pages go into the list before entry k, and their block takes over the one that follows.
    method MergeRight(k: nat, base: nat, n: nat)
      requires k <= |list| && n > 0 && (k < |list| ==> list[k] in property)
      modifies this`list, this`property
      ensures list == Freed(old(list)[..k], base, n, old(list)[k..])
      ensures property == MergedRight(old(property), base, n, old(list)[k..])
    {
      var pages := Fill(base, n);
      var next := if k < |list| then Some(list[k]) else None;
      list := list[..k] + (pages + list[k..]);
      property := property[base := n];
      if next == Some(base + n) {
        property := property[base := property[base] + property[base + n]][base + n := 0];
      }
    }

    // Back to the first page of the block before `base`, which takes the block over.
    method MergeBack(k: nat, ghost a: seq<nat>, base: nat)
      requires 0 < k <= |list| && list[..k] == a && base in property
      requires Coalesced(a, property)
      modifies this`property
      ensures a[HeadOf(a, k - 1)] in old(property)
      ensures property == Merged(old(property), a[HeadOf(a, k - 1)], base)
    {
      var j := k - 1;
      assert list[j] == list[..k][j] && Marked(a, property, j);
      while property[list[j]] == 0
        invariant 0 <= j < k && list[j] == a[j] && list[j] in property && HeadOf(a, j) == HeadOf(a, k - 1)
        invariant property == old(property)
        decreases j
      {
        assert Marked(a, property, j);
        j := j - 1;
        assert list[j] == list[..k][j] && Marked(a, property, j);
      }
      assert Marked(a, property, j);
      property := property[list[j] := property[list[j]] + property[base]][base := 0];
    }

    // The entries of the freed pages, in order.
    method Fill(base: nat, n: nat) returns (r: seq<nat>)
      ensures r == Range(base, n)
    {
      r := [];
      var p := base;
      while p < base + n
        invariant base <= p <= base + n && r == Range(base, p - base)
      {
        r := r + [p];
        p := p + 1;
      }
    }
  }
}
