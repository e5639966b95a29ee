/**
 When stopping at the first hit is right.  The recency order between layers is not only enough but needed.  A
 compaction that leaves files behind above its output level keeps every read exactly when no version left there
 would answer for a newer one that went down; dropped tombstones count as versions that went down.  A bounded
 level-0 range may violate that (src/compact/picker.rs:92-97).
 */
module LayerExactness {
  import opened Keys
  import opened Visibility
  import opened LayerCompaction

  /** No version is in two layers. */
  ghost predicate Apart(ls: seq<set<Entry>>) {
    forall i, j :: 0 <= i < j < |ls| ==> ls[i] !! ls[j]
  }

  ghost predicate FirstHitRight(ls: seq<set<Entry>>) {
    forall k, r: nat :: FirstHit(ls, k, r) == Newest(Union(ls), k, r)
  }

  /** The layer that answers is the first with a version in reach. */
  lemma {:induction false} FirstHitLayer(ls: seq<set<Entry>>, k: Bytes, r: nat, i: nat, f: Entry) returns (p: nat)
    requires i < |ls| && f in ls[i] && VersionOf(f, k, r)
    ensures p <= i && FirstHit(ls, k, r) == Newest(ls[p], k, r) && Newest(ls[p], k, r).Some?
  {
    if Newest(ls[0], k, r).Some? {
      p := 0;
    } else {
      p := FirstHitLayer(ls[1..], k, r, i - 1, f);
      p := p + 1;
    }
  }

  /** Between layers that share no version, shadowing says that the upper one has the newer versions of every key. */
  ghost predicate NewerAbove(up: set<Entry>, down: set<Entry>) {
    forall e, f :: e in down && f in up && f.key.userKey == e.key.userKey ==> f.key.sequence > e.key.sequence
  }

  lemma ApartShadows(up: set<Entry>, down: set<Entry>)
    requires up !! down
    ensures Shadows(up, down) <==> NewerAbove(up, down)
  {
  }

  lemma NeedsNewer(ls: seq<set<Entry>>, i: nat, j: nat, e: Entry, f: Entry)
    requires Functional(Union(ls)) && Apart(ls) && FirstHitRight(ls)
    requires i < j < |ls| && e in ls[j] && f in ls[i] && f.key.userKey == e.key.userKey
    ensures f.key.sequence > e.key.sequence
  {
    var k := e.key.userKey;
    var r := if e.key.sequence > f.key.sequence then e.key.sequence else f.key.sequence;
    InUnion(ls, j, e);
    InUnion(ls, i, f);
    var p := FirstHitLayer(ls, k, r, i, f);
    var n := Newest(ls[p], k, r).value;
    assert FirstHit(ls, k, r) == Newest(Union(ls), k, r);
    InUnion(ls, p, n);
    assert ls[p] !! ls[j];
    assert n != e;
  }

  /** With no version in two layers, reading at the first hit is right if and only if the layers are in recency order. */
  lemma RecencyIsExact(ls: seq<set<Entry>>)
    requires Functional(Union(ls)) && Apart(ls)
    ensures FirstHitRight(ls) <==> Recency(ls)
  {
    if Recency(ls) {
      forall k, r: nat ensures FirstHit(ls, k, r) == Newest(Union(ls), k, r) {
        FirstHitIsNewest(ls, k, r);
      }
    }
    if FirstHitRight(ls) {
      hide FirstHitRight, Functional;
      forall i, j | 0 <= i < j < |ls| ensures Shadows(ls[i], ls[j]) {
        forall e, f | e in ls[j] && f in ls[i] && f.key.userKey == e.key.userKey ensures f.key.sequence > e.key.sequence {
          NeedsNewer(ls, i, j, e, f);
        }
        ApartShadows(ls[i], ls[j]);
      }
    }
  }

  // ----- compaction

  /**
   Versions leave layers down to the target, key by key: what stays in a layer, or in the target, shares no key
   with what left that layer, or went into the target.
   */
  ghost predicate Moves(ls: seq<set<Entry>>, moved: seq<set<Entry>>, t: nat) {
    && |moved| == |ls| && t < |ls|
    && (forall i :: 0 <= i < |ls| ==> moved[i] <= ls[i] && (i > t ==> moved[i] == {}))
    && (forall i, x, y :: 0 <= i < |ls| && x in moved[i] && y in ls[i] - moved[i] ==> x.key.userKey != y.key.userKey)
    && (forall x, y :: x in Union(moved) && y in ls[t] - moved[t] ==> x.key.userKey != y.key.userKey)
  }

  /** What stays in the layers above the target. */
  ghost function Staying(ls: seq<set<Entry>>, moved: seq<set<Entry>>, t: nat): (r: seq<set<Entry>>)
    requires |moved| == |ls| && t < |ls|
    ensures |r| == t
  {
    seq(t, i requires 0 <= i < t => ls[i] - moved[i])
  }

  function Later(w: nat, s: nat): nat { if s > w then s else w }

  /**
   Nothing stale stays above: wherever the newest version `y` above the target is older than the newest version
   `x` of the input, both as read at the watermark or at `x`, the two read alike.
   */
  ghost predicate Unharmed(above: set<Entry>, input: set<Entry>, w: nat) {
    forall x, y ::
      && x in input && y in above && y.key.userKey == x.key.userKey && y.key.sequence < x.key.sequence
      && IsNewest(input, x.key.userKey, Later(w, x.key.sequence), x)
      && IsNewest(above, x.key.userKey, Later(w, x.key.sequence), y)
      ==> Visible(Some(x)) == Visible(Some(y))
  }

  /** At a read sequence the layers above answer with a version older than the newest one of the input. */
  ghost predicate StaleAt(above: set<Entry>, input: set<Entry>, k: Bytes, r: nat) {
    && Newest(above, k, r).Some? && Newest(input, k, r).Some?
    && Newest(above, k, r).value.key.sequence < Newest(input, k, r).value.key.sequence
  }

  lemma StayingRecency(ls: seq<set<Entry>>, moved: seq<set<Entry>>, t: nat)
    requires Recency(ls) && Moves(ls, moved, t)
    ensures Recency(Staying(ls, moved, t)) && Union(Staying(ls, moved, t)) <= Union(ls)
  {
    var above := Staying(ls, moved, t);
    forall i, j | 0 <= i < j < t ensures Shadows(above[i], above[j]) {
      assert Shadows(ls[i], ls[j]);
    }
    hide Recency, Moves;
    forall e | e in Union(above) ensures e in Union(ls) {
      var i := MovedLayer(above, e);
      InUnion(ls, i, e);
    }
  }

  lemma BelowRecency(ls: seq<set<Entry>>, t: nat)
    requires Recency(ls) && t < |ls|
    ensures Recency(ls[t + 1..])
  {
    assert ls == ls[..t + 1] + ls[t + 1..];
    RecencyConcat(ls[..t + 1], ls[t + 1..]);
  }

  /** All versions before: what stays above, the input, the rest of the target, and what is below. */
  lemma Contents(ls: seq<set<Entry>>, moved: seq<set<Entry>>, t: nat)
    requires Moves(ls, moved, t)
    ensures Union(ls) == Union(Staying(ls, moved, t)) + Union(moved) + (ls[t] - moved[t]) + Union(ls[t + 1..])
  {
    var above, below := Staying(ls, moved, t), ls[t + 1..];
    forall e | e in Union(ls) ensures e in Union(above) + Union(moved) + (ls[t] - moved[t]) + Union(below) {
      var i := MovedLayer(ls, e);
      if e in moved[i] {
        InUnion(moved, i, e);
      } else if i < t {
        InUnion(above, i, e);
      } else if i > t {
        InUnion(below, i - t - 1, e);
      }
    }
    forall e | e in Union(above) + Union(moved) + (ls[t] - moved[t]) + Union(below) ensures e in Union(ls) {
      if e in Union(above) {
        var i := MovedLayer(above, e);
        InUnion(ls, i, e);
      } else if e in Union(moved) {
        var i := MovedLayer(moved, e);
        InUnion(ls, i, e);
      } else if e in ls[t] - moved[t] {
        InUnion(ls, t, e);
      } else {
        var i := MovedLayer(below, e);
        InUnion(ls, t + 1 + i, e);
      }
    }
  }

  /** What the stack after the compaction answers, part by part. */
  lemma FirstHitParts(ls: seq<set<Entry>>, moved: seq<set<Entry>>, t: nat, kept: set<Entry>, k: Bytes, r: nat)
    requires Recency(ls) && Functional(Union(ls)) && Moves(ls, moved, t)
    ensures var a := Newest(Union(Staying(ls, moved, t)), k, r);
            var n := Newest(ls[t] - moved[t] + kept, k, r);
            FirstHit(After(ls, moved, t, kept), k, r) ==
            if a.Some? then a else if n.Some? then n else Newest(Union(ls[t + 1..]), k, r)
  {
    var above, mid, below := Staying(ls, moved, t), ls[t] - moved[t] + kept, ls[t + 1..];
    AfterParts(ls, moved, t, kept);
    StayingRecency(ls, moved, t);
    BelowRecency(ls, t);
    Contents(ls, moved, t);
    FunctionalSubset(Union(ls), Union(above));
    FunctionalSubset(Union(ls), Union(below));
    hide Moves, Recency, Functional, Union, After, Staying;
    FirstHitIsNewest(above, k, r);
    FirstHitIsNewest(below, k, r);
    FirstHitConcat(above, [mid] + below, k, r);
    FirstHitConcat([mid], below, k, r);
    OneLayerHit(mid, k, r);
  }

  lemma OneLayerHit(l: set<Entry>, k: Bytes, r: nat)
    ensures FirstHit([l], k, r) == Newest(l, k, r)
  {
    assert [l][1..] == [];
  }

  lemma AfterParts(ls: seq<set<Entry>>, moved: seq<set<Entry>>, t: nat, kept: set<Entry>)
    requires Moves(ls, moved, t)
    ensures After(ls, moved, t, kept) == Staying(ls, moved, t) + ([ls[t] - moved[t] + kept] + ls[t + 1..])
  {
    hide Union;
    var after, parts := After(ls, moved, t, kept), Staying(ls, moved, t) + ([ls[t] - moved[t] + kept] + ls[t + 1..]);
    assert |after| == |parts|;
    forall i | 0 <= i < |after| ensures after[i] == parts[i] {
    }
  }

  /** A version lower down is not newer than one that stays above, or than one of the input. */
  lemma LowerIsOlder(ls: seq<set<Entry>>, moved: seq<set<Entry>>, t: nat, k: Bytes, r: nat, z: Entry)
    requires Recency(ls) && Moves(ls, moved, t) && VersionOf(z, k, r)
    requires z in ls[t] - moved[t] || z in Union(ls[t + 1..])
    ensures var a := Newest(Union(Staying(ls, moved, t)), k, r);
            a.Some? ==> z.key.sequence <= a.value.key.sequence
    ensures var x := Newest(Union(moved), k, r);
            x.Some? ==> z.key.sequence <= x.value.key.sequence && z !in ls[t] - moved[t]
  {
    var above := Staying(ls, moved, t);
    var a, x := Newest(Union(above), k, r), Newest(Union(moved), k, r);
    var j := t;
    if z !in ls[t] - moved[t] {
      var n := MovedLayer(ls[t + 1..], z);
      j := t + 1 + n;
    }
    assert z in ls[j] - moved[j];
    if a.Some? {
      var i := MovedLayer(above, a.value);
      assert Shadows(ls[i], ls[j]);
      if a.value.key.sequence <= z.key.sequence {
        assert z in ls[i] - moved[i];
        InUnion(above, i, z);
      }
    }
    if x.Some? {
      var m := MovedLayer(moved, x.value);
      if m < j {
        assert Shadows(ls[m], ls[j]);
        if x.value.key.sequence <= z.key.sequence {
          assert z in moved[m];
          InUnion(moved, m, z);
        }
      }
    }
  }

  /** The rest of the target answers before what is below it. */
  lemma TargetIsNewer(ls: seq<set<Entry>>, moved: seq<set<Entry>>, t: nat, k: Bytes, r: nat, z: Entry)
    requires Recency(ls) && Moves(ls, moved, t) && VersionOf(z, k, r) && z in Union(ls[t + 1..])
    ensures var c := Newest(ls[t] - moved[t], k, r);
            c.Some? ==> z.key.sequence <= c.value.key.sequence
  {
    var c := Newest(ls[t] - moved[t], k, r);
    var n := MovedLayer(ls[t + 1..], z);
    if c.Some? {
      assert Shadows(ls[t], ls[t + 1 + n]);
      if c.value.key.sequence <= z.key.sequence {
        assert z in ls[t] - moved[t];
      }
    }
  }

  /** What collection keeps for a read at or above the watermark: the newest of the input, or nothing if it is dropped. */
  lemma KeptNewest(input: set<Entry>, w: nat, drop: bool, k: Bytes, r: nat)
    requires Functional(input) && w <= r
    ensures var x, n := Newest(input, k, r), Newest(Gc(input, w, drop), k, r);
            && (n == x || (n == None && x.Some? && x.value.value.Delete? && drop))
  {
    var x, kept := Newest(input, k, r), Gc(input, w, drop);
    GcWithin(input, w, drop);
    if x.Some? {
      FunctionalSubset(input, kept);
      if x.value in kept {
        NewestUnique(kept, k, r, x.value);
      } else {
        assert IsNewest(input, k, w, x.value);
        forall y | y in kept ensures !VersionOf(y, k, r) {
          if VersionOf(y, k, r) { OlderNotKept(input, w, drop, k, x.value, y); }
        }
      }
    }
  }

  /** The newest of all: of what stays above or the input, else of the target's rest, else of what is below. */
  lemma NewestParts(ls: seq<set<Entry>>, moved: seq<set<Entry>>, t: nat, k: Bytes, r: nat)
    requires Recency(ls) && Functional(Union(ls)) && Moves(ls, moved, t)
    ensures var a, x := Newest(Union(Staying(ls, moved, t)), k, r), Newest(Union(moved), k, r);
            var c := Newest(ls[t] - moved[t], k, r);
            && (x.Some? ==> c == None)
            && Newest(Union(ls), k, r) ==
               if a.Some? && x.Some? then (if a.value.key.sequence < x.value.key.sequence then x else a)
               else if a.Some? then a else if x.Some? then x
               else if c.Some? then c else Newest(Union(ls[t + 1..]), k, r)
  {
    var above, input, rest, below := Union(Staying(ls, moved, t)), Union(moved), ls[t] - moved[t], Union(ls[t + 1..]);
    var a, x, c, z := Newest(above, k, r), Newest(input, k, r), Newest(rest, k, r), Newest(below, k, r);
    Contents(ls, moved, t);
    if c.Some? { LowerIsOlder(ls, moved, t, k, r, c.value); }
    if z.Some? {
      LowerIsOlder(ls, moved, t, k, r, z.value);
      TargetIsNewer(ls, moved, t, k, r, z.value);
    }
    hide Moves, Recency, Staying, Union;
    NewestOfFour(Union(ls), above, input, rest, below, k, r);
  }

  lemma NewestOfFour(all: set<Entry>, above: set<Entry>, input: set<Entry>, rest: set<Entry>, below: set<Entry>, k: Bytes, r: nat)
    requires Functional(all) && all == above + input + rest + below
    requires var a, x, c, z := Newest(above, k, r), Newest(input, k, r), Newest(rest, k, r), Newest(below, k, r);
             && (c.Some? && a.Some? ==> c.value.key.sequence <= a.value.key.sequence)
             && (z.Some? && a.Some? ==> z.value.key.sequence <= a.value.key.sequence)
             && (c.Some? ==> x == None)
             && (z.Some? && x.Some? ==> z.value.key.sequence <= x.value.key.sequence)
             && (z.Some? && c.Some? ==> z.value.key.sequence <= c.value.key.sequence)
    ensures var a, x, c := Newest(above, k, r), Newest(input, k, r), Newest(rest, k, r);
            Newest(all, k, r) ==
               if a.Some? && x.Some? then (if a.value.key.sequence < x.value.key.sequence then x else a)
               else if a.Some? then a else if x.Some? then x
               else if c.Some? then c else Newest(below, k, r)
  {
    var a, x, c, z := Newest(above, k, r), Newest(input, k, r), Newest(rest, k, r), Newest(below, k, r);
    var n := if a.Some? && x.Some? then (if a.value.key.sequence < x.value.key.sequence then x else a)
             else if a.Some? then a else if x.Some? then x else if c.Some? then c else z;
    hide Functional;
    if n.Some? {
      forall f | f in all && VersionOf(f, k, r) ensures f.key.sequence <= n.value.key.sequence {
      }
      NewestUnique(all, k, r, n.value);
    }
  }

  /**
   One read after a compaction, at or above the watermark.  Where the layers above answer with a version older
   than the newest of the input, that version is read in place of the newest; everywhere else nothing changes.
   */
  lemma ReadAfter(ls: seq<set<Entry>>, moved: seq<set<Entry>>, t: nat, w: nat, drop: bool, k: Bytes, r: nat)
    requires Recency(ls) && Functional(Union(ls)) && Moves(ls, moved, t)
    requires drop ==> DropSafe(ls, moved, t)
    requires w <= r
    ensures var above, hit := Union(Staying(ls, moved, t)), FirstHit(After(ls, moved, t, Gc(Union(moved), w, drop)), k, r);
            if StaleAt(above, Union(moved), k, r)
            then hit == Newest(above, k, r) && Newest(Union(ls), k, r) == Newest(Union(moved), k, r)
            else Visible(hit) == Get(Union(ls), k, r)
  {
    var input, rest := Union(moved), ls[t] - moved[t];
    var kept := Gc(input, w, drop);
    var a, x, c := Newest(Union(Staying(ls, moved, t)), k, r), Newest(input, k, r), Newest(rest, k, r);
    FirstHitParts(ls, moved, t, kept, k, r);
    NewestParts(ls, moved, t, k, r);
    Contents(ls, moved, t);
    FunctionalSubset(Union(ls), input);
    KeptNewest(input, w, drop, k, r);
    NothingBelow(ls, moved, t, drop, k, r);
    FunctionalSubset(Union(ls), rest + kept);
    hide Moves, Recency, Staying, Union, After, Gc, DropSafe;
    NewestOfTwo(rest, kept, k, r);
    if a.Some? && x.Some? && a.value.key.sequence >= x.value.key.sequence {
      assert Newest(Union(ls), k, r) == a;
    }
  }

  /** Where a tombstone may be dropped nothing below has its key. */
  lemma NothingBelow(ls: seq<set<Entry>>, moved: seq<set<Entry>>, t: nat, drop: bool, k: Bytes, r: nat)
    requires |moved| == |ls| && t < |ls| && (drop ==> DropSafe(ls, moved, t))
    ensures drop && Newest(Union(moved), k, r).Some? ==> Newest(Union(ls[t + 1..]), k, r) == None
  {
    if drop && Newest(Union(moved), k, r).Some? {
      var x := Newest(Union(moved), k, r).value;
      forall z | z in Union(ls[t + 1..]) ensures !VersionOf(z, k, r) {
        var n := MovedLayer(ls[t + 1..], z);
        assert z in ls[t + 1 + n];
      }
    }
  }

  lemma NewestOfTwo(a: set<Entry>, b: set<Entry>, k: Bytes, r: nat)
    requires Functional(a + b)
    ensures Newest(a, k, r) == None ==> Newest(a + b, k, r) == Newest(b, k, r)
    ensures Newest(b, k, r) == None ==> Newest(a + b, k, r) == Newest(a, k, r)
  {
    if Newest(a, k, r) == None && Newest(b, k, r).Some? { NewestUnique(a + b, k, r, Newest(b, k, r).value); }
    if Newest(b, k, r) == None && Newest(a, k, r).Some? { NewestUnique(a + b, k, r, Newest(a, k, r).value); }
  }

  /** Every read at or above the watermark stays right after a compaction if and only if nothing stale stays above. */
  lemma CompactionReadsIff(ls: seq<set<Entry>>, moved: seq<set<Entry>>, t: nat, w: nat, drop: bool)
    requires Recency(ls) && Functional(Union(ls)) && Moves(ls, moved, t)
    requires drop ==> DropSafe(ls, moved, t)
    ensures ReadsRight(After(ls, moved, t, Gc(Union(moved), w, drop)), Union(ls), w) <==>
            Unharmed(Union(Staying(ls, moved, t)), Union(moved), w)
  {
    var above, input, after := Union(Staying(ls, moved, t)), Union(moved), After(ls, moved, t, Gc(Union(moved), w, drop));
    Contents(ls, moved, t);
    FunctionalSubset(Union(ls), above);
    FunctionalSubset(Union(ls), input);
    if Unharmed(above, input, w) {
      hide Moves, Recency, Functional, Staying, Union, After, Gc, DropSafe;
      forall k, r: nat | w <= r ensures Visible(FirstHit(after, k, r)) == Get(Union(ls), k, r) {
        ReadAfter(ls, moved, t, w, drop, k, r);
        if StaleAt(above, input, k, r) { StaleReadsAlike(above, input, w, k, r); }
      }
    }
    if ReadsRight(after, Union(ls), w) {
      RightIsUnharmed(ls, moved, t, w, drop);
    }
  }

  lemma RightIsUnharmed(ls: seq<set<Entry>>, moved: seq<set<Entry>>, t: nat, w: nat, drop: bool)
    requires Recency(ls) && Functional(Union(ls)) && Moves(ls, moved, t)
    requires drop ==> DropSafe(ls, moved, t)
    requires Functional(Union(Staying(ls, moved, t))) && Functional(Union(moved))
    requires ReadsRight(After(ls, moved, t, Gc(Union(moved), w, drop)), Union(ls), w)
    ensures Unharmed(Union(Staying(ls, moved, t)), Union(moved), w)
  {
    var above, input := Union(Staying(ls, moved, t)), Union(moved);
    hide Moves, Recency, Functional, Staying, Union, After, Gc, DropSafe, Unharmed;
    forall x, y | x in input && y in above && y.key.userKey == x.key.userKey && y.key.sequence < x.key.sequence
      && IsNewest(input, x.key.userKey, Later(w, x.key.sequence), x) && IsNewest(above, x.key.userKey, Later(w, x.key.sequence), y)
      ensures Visible(Some(x)) == Visible(Some(y))
    {
      var k, r := x.key.userKey, Later(w, x.key.sequence);
      ReadAfter(ls, moved, t, w, drop, k, r);
      NewestUnique(input, k, r, x);
      NewestUnique(above, k, r, y);
    }
    UnharmedIs(above, input, w);
  }

  lemma UnharmedIs(above: set<Entry>, input: set<Entry>, w: nat)
    requires forall x, y ::
               && x in input && y in above && y.key.userKey == x.key.userKey && y.key.sequence < x.key.sequence
               && IsNewest(input, x.key.userKey, Later(w, x.key.sequence), x)
               && IsNewest(above, x.key.userKey, Later(w, x.key.sequence), y)
               ==> Visible(Some(x)) == Visible(Some(y))
    ensures Unharmed(above, input, w)
  {
  }

  /** Every read at or above `w`, stopping at the first hit, is the one over these versions. */
  ghost predicate ReadsRight(ls: seq<set<Entry>>, all: set<Entry>, w: nat) {
    forall k, r: nat :: w <= r ==> Visible(FirstHit(ls, k, r)) == Get(all, k, r)
  }

  lemma StaleReadsAlike(above: set<Entry>, input: set<Entry>, w: nat, k: Bytes, r: nat)
    requires Unharmed(above, input, w) && w <= r && StaleAt(above, input, k, r)
    ensures Visible(Newest(above, k, r)) == Visible(Newest(input, k, r))
  {
    var x, y := Newest(input, k, r).value, Newest(above, k, r).value;
    assert Later(w, x.key.sequence) <= r;
    assert IsNewest(input, x.key.userKey, Later(w, x.key.sequence), x);
    assert IsNewest(above, x.key.userKey, Later(w, x.key.sequence), y);
  }
}
