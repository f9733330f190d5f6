/**
  Version histories: when checking each version against the one before is enough for all of them.
  */
module Histories {
  import opened Basics
  import opened Varint
  import opened Wire
  import opened Schemas
  import opened Codec
  import opened Evolution
  import opened TypeChanges

  // b retires every number it drops from a, and everything a had retired, nested schemas included.
  ghost predicate Retires(a: Schema, b: Schema)
    decreases a
  {
    && a.reserved <= b.reserved
    && (forall n: nat :: Declares(a, n) && !Declares(b, n) ==> n in b.reserved)
    && (forall n: nat :: Declares(a, n) && Declares(b, n) ==> KindRetires(Lookup(a, n).value, Lookup(b, n).value))
  }

  ghost predicate KindRetires(a: Kind, b: Kind)
    decreases a
  {
    a.Nested? && b.Nested? ==> Retires(a.schema, b.schema)
  }

  ghost predicate AdjacentCompatible(history: seq<Schema>) {
    forall i :: 0 <= i < |history| - 1 ==> Compatible(history[i], history[i + 1])
  }

  ghost predicate AdjacentRetires(history: seq<Schema>) {
    forall i :: 0 <= i < |history| - 1 ==> Retires(history[i], history[i + 1])
  }

  ghost predicate AllWellFormed(history: seq<Schema>) {
    forall i :: 0 <= i < |history| ==> WellFormed(history[i])
  }

  // The direction plays no part on the wire: what BACKWARD accepts, FORWARD accepts.
  lemma {:induction false} CompatibleSymmetric(a: Schema, b: Schema)
    requires Compatible(a, b)
    ensures Compatible(b, a)
    decreases a
  {
    forall n: nat | Declares(b, n) && Declares(a, n)
      ensures KindsAgree(Lookup(b, n).value, Lookup(a, n).value)
    {
      var x, y := Lookup(a, n).value, Lookup(b, n).value;
      assert KindsAgree(x, y);
      if x.Nested? && y.Nested? {
        CompatibleSymmetric(x.schema, y.schema);
      }
    }
  }

  lemma {:induction false} NumberNotReserved(s: Schema, n: nat)
    requires WellFormed(s) && Declares(s, n)
    ensures n !in s.reserved
    ensures Lookup(s, n).value.Nested? ==> WellFormed(Lookup(s, n).value.schema)
  {
    var i := Find(s.fields, n).value;
    assert s.fields[i].number == n;
  }

  // Compatibility composes over a middle version that retires what it drops.
  lemma {:induction false} Composes(a: Schema, b: Schema, c: Schema)
    requires Compatible(a, b) && Compatible(b, c) && Retires(a, b) && Retires(b, c) && WellFormed(c)
    ensures Compatible(a, c) && Retires(a, c)
    decreases a
  {
    forall n: nat | Declares(a, n) && Declares(c, n)
      ensures KindsAgree(Lookup(a, n).value, Lookup(c, n).value)
      ensures KindRetires(Lookup(a, n).value, Lookup(c, n).value)
    {
      NumberNotReserved(c, n);
      assert Declares(b, n);
      var x, y, z := Lookup(a, n).value, Lookup(b, n).value, Lookup(c, n).value;
      assert KindsAgree(x, y) && KindsAgree(y, z) && KindRetires(x, y) && KindRetires(y, z);
      if x.Nested? && z.Nested? {
        Composes(x.schema, y.schema, z.schema);
      }
    }
  }

  lemma {:induction false} RetiresItself(s: Schema)
    ensures Retires(s, s)
    decreases s
  {
    forall n: nat | Declares(s, n)
      ensures KindRetires(Lookup(s, n).value, Lookup(s, n).value)
    {
      if Lookup(s, n).value.Nested? {
        RetiresItself(Lookup(s, n).value.schema);
      }
    }
  }

  lemma {:induction false} AdjacentPair(history: seq<Schema>, k: nat)
    requires AdjacentCompatible(history) && AdjacentRetires(history) && AllWellFormed(history)
    requires k + 1 < |history|
    ensures Compatible(history[k], history[k + 1]) && Retires(history[k], history[k + 1]) && WellFormed(history[k + 1])
  {
  }

  lemma {:induction false} ForwardCompatible(history: seq<Schema>, i: nat, j: nat)
    requires AdjacentCompatible(history) && AdjacentRetires(history)
    requires AllWellFormed(history)
    requires i <= j < |history|
    ensures Compatible(history[i], history[j]) && Retires(history[i], history[j])
    decreases j
  {
    if i == j {
      CompatibleWithItself(history[i]);
      RetiresItself(history[i]);
    } else {
      var k := j - 1;
      ForwardCompatible(history, i, k);
      AdjacentPair(history, k);
      Composes(history[i], history[k], history[k + 1]);
    }
  }

  // With reservations kept, adjacent checks give compatibility between all pairs of versions.
  lemma {:induction false} AllPairsCompatible(history: seq<Schema>, i: nat, j: nat)
    requires AdjacentCompatible(history) && AdjacentRetires(history)
    requires AllWellFormed(history)
    requires i < |history| && j < |history|
    ensures Compatible(history[i], history[j])
  {
    if i <= j {
      ForwardCompatible(history, i, j);
    } else {
      ForwardCompatible(history, j, i);
      CompatibleSymmetric(history[j], history[i]);
    }
  }

  // Hence any consumer can read the whole topic, whichever versions wrote it.
  lemma {:induction false} WholeTopicReadable(history: seq<Schema>, writer: nat, reader: nat, m: Message)
    requires AdjacentCompatible(history) && AdjacentRetires(history)
    requires AllWellFormed(history)
    requires writer < |history| && reader < |history|
    requires Canonical(history[writer], m) && |Serialize(history[writer], m)| < U64
    ensures Parse(history[reader], Serialize(history[writer], m)) == Some(View(history[reader], m))
  {
    AllPairsCompatible(history, reader, writer);
    CompatibleReads(history[reader], history[writer]);
    ReadsAcross(history[reader], history[writer], m);
  }

  // ---- exactly when adjacent checks are enough ----

  // What a path of field numbers leads to: the message itself, a nested message or a scalar.
  datatype Shape = Message | Scalar(kind: Kind)

  function ShapeAt(s: Schema, path: seq<nat>): Option<Shape>
    decreases |path|
  {
    if path == [] then Some(Shape.Message)
    else
      match Lookup(s, path[0])
      case None => None
      case Some(Nested(sub)) => ShapeAt(sub, path[1..])
      case Some(kind) => if |path| == 1 then Some(Scalar(kind)) else None
  }

  predicate SameShape(a: Schema, b: Schema, path: seq<nat>) {
    ShapeAt(a, path).Some? && ShapeAt(b, path).Some? ==> ShapeAt(a, path) == ShapeAt(b, path)
  }

  lemma {:induction false} CompatibleAlong(a: Schema, b: Schema, path: seq<nat>)
    requires Compatible(a, b)
    ensures SameShape(a, b, path)
    decreases |path|
  {
    if path != [] && Declares(a, path[0]) && Declares(b, path[0]) {
      var x, y := Lookup(a, path[0]).value, Lookup(b, path[0]).value;
      assert KindsAgree(x, y);
      if x.Nested? && y.Nested? {
        CompatibleAlong(x.schema, y.schema, path[1..]);
      }
    }
  }

  lemma {:induction false} ShapeBelow(s: Schema, n: nat, path: seq<nat>)
    requires Declares(s, n) && Lookup(s, n).value.Nested?
    ensures ShapeAt(s, [n] + path) == ShapeAt(Lookup(s, n).value.schema, path)
  {
    assert ([n] + path)[1..] == path;
  }

  lemma {:induction false} ShapeOfField(s: Schema, n: nat)
    requires Declares(s, n)
    ensures var kind := Lookup(s, n).value;
            ShapeAt(s, [n]) == Some(if kind.Nested? then Shape.Message else Scalar(kind))
  {
    assert [n][1..] == [];
  }

  lemma {:induction false} SameShapesCompatible(a: Schema, b: Schema)
    requires forall path: seq<nat> :: SameShape(a, b, path)
    ensures Compatible(a, b)
    decreases a
  {
    forall n: nat | Declares(a, n) && Declares(b, n)
      ensures KindsAgree(Lookup(a, n).value, Lookup(b, n).value)
    {
      var x, y := Lookup(a, n).value, Lookup(b, n).value;
      ShapeOfField(a, n);
      ShapeOfField(b, n);
      assert SameShape(a, b, [n]);
      if x.Nested? && y.Nested? {
        forall path: seq<nat>
          ensures SameShape(x.schema, y.schema, path)
        {
          ShapeBelow(a, n, path);
          ShapeBelow(b, n, path);
          assert SameShape(a, b, [n] + path);
        }
        SameShapesCompatible(x.schema, y.schema);
      }
    }
  }

  // A path that some version declares, the versions in between do not, and version k declares again.
  ghost predicate Reused(history: seq<Schema>, path: seq<nat>, i: nat, k: nat)
    requires i < k < |history|
  {
    && ShapeAt(history[i], path).Some? && ShapeAt(history[k], path).Some?
    && (forall j :: i < j < k ==> ShapeAt(history[j], path).None?)
  }

  // Whatever is dropped and later declared again comes back with the type it had.
  ghost predicate ReusesKeepType(history: seq<Schema>) {
    forall path: seq<nat>, i: nat, k: nat :: i < k < |history| && Reused(history, path, i, k) ==>
      ShapeAt(history[i], path) == ShapeAt(history[k], path)
  }

  ghost predicate AllCompatible(history: seq<Schema>) {
    forall i, j :: 0 <= i < |history| && 0 <= j < |history| ==> Compatible(history[i], history[j])
  }

  // The last version before k that declares a path, from i on.
  lemma {:induction false} LastBefore(history: seq<Schema>, path: seq<nat>, i: nat, k: nat) returns (j: nat)
    requires i < k < |history| && ShapeAt(history[i], path).Some?
    ensures i <= j < k && ShapeAt(history[j], path).Some?
    ensures forall x :: j < x < k ==> ShapeAt(history[x], path).None?
    decreases k
  {
    j := k - 1;
    if ShapeAt(history[j], path).None? {
      j := LastBefore(history, path, i, k - 1);
    }
  }

  lemma {:induction false} ShapesKept(history: seq<Schema>, path: seq<nat>, i: nat, k: nat)
    requires ReusesKeepType(history)
    requires i <= k < |history| && ShapeAt(history[i], path).Some? && ShapeAt(history[k], path).Some?
    ensures ShapeAt(history[i], path) == ShapeAt(history[k], path)
    decreases k
  {
    if i < k {
      var j := LastBefore(history, path, i, k);
      ShapesKept(history, path, i, j);
      assert Reused(history, path, j, k);
    }
  }

  lemma {:induction false} KeptTypesCompatible(history: seq<Schema>, i: nat, k: nat)
    requires ReusesKeepType(history) && i <= k < |history|
    ensures Compatible(history[i], history[k])
  {
    forall path: seq<nat>
      ensures SameShape(history[i], history[k], path)
    {
      if ShapeAt(history[i], path).Some? && ShapeAt(history[k], path).Some? {
        ShapesKept(history, path, i, k);
      }
    }
    SameShapesCompatible(history[i], history[k]);
  }

  // All pairs of versions are compatible if and only if no number, at any depth, is dropped and
  // later reused with another type. (A number kept from one version to the next is the case with no
  // version in between, which is what the adjacent checks look at.)
  lemma {:induction false} AllCompatibleExactly(history: seq<Schema>)
    ensures AllCompatible(history) <==> ReusesKeepType(history)
  {
    if ReusesKeepType(history) {
      forall i, j | 0 <= i < |history| && 0 <= j < |history|
        ensures Compatible(history[i], history[j])
      {
        if i <= j {
          KeptTypesCompatible(history, i, j);
        } else {
          KeptTypesCompatible(history, j, i);
          CompatibleSymmetric(history[j], history[i]);
        }
      }
    }
    if AllCompatible(history) {
      forall path: seq<nat>, i: nat, k: nat | i < k < |history| && Reused(history, path, i, k)
        ensures ShapeAt(history[i], path) == ShapeAt(history[k], path)
      {
        CompatibleAlong(history[i], history[k], path);
      }
    }
  }

  // The reuses that adjacent checks cannot see: at least one version in between.
  ghost predicate GapsKeepType(history: seq<Schema>) {
    forall path: seq<nat>, i: nat, k: nat :: i + 1 < k < |history| && Reused(history, path, i, k) ==>
      ShapeAt(history[i], path) == ShapeAt(history[k], path)
  }

  // So, of a history that passes every adjacent check, all pairs are compatible if and only if each
  // number that skips a version comes back with the type it had.
  lemma {:induction false} AdjacentEnoughExactly(history: seq<Schema>)
    requires AdjacentCompatible(history)
    ensures AllCompatible(history) <==> GapsKeepType(history)
  {
    AllCompatibleExactly(history);
    if GapsKeepType(history) {
      forall path: seq<nat>, i: nat, k: nat | i < k < |history| && Reused(history, path, i, k)
        ensures ShapeAt(history[i], path) == ShapeAt(history[k], path)
      {
        if k == i + 1 {
          CompatibleAlong(history[i], history[i + 1], path);
        }
      }
    }
  }

  // ---- without reservations ----

  const WITH_TEXT := Schema([Field(7, Text)], {})
  const DROPPED := Schema([], {})
  const REUSED := Schema([Field(7, Int32)], {})

  // A number dropped and later reused with another type passes every adjacent check.
  lemma {:induction false} ReuseSlipsThrough()
    ensures AdjacentCompatible([WITH_TEXT, DROPPED, REUSED])
    ensures AllWellFormed([WITH_TEXT, DROPPED, REUSED])
    ensures !Compatible(REUSED, WITH_TEXT)
  {
    var history := [WITH_TEXT, DROPPED, REUSED];
    LookupDeclared(WITH_TEXT, 0);
    LookupDeclared(REUSED, 0);
    assert !KindsAgree(Lookup(REUSED, 7).value, Lookup(WITH_TEXT, 7).value);
    assert Compatible(WITH_TEXT, DROPPED) && Compatible(DROPPED, REUSED);
    assert history[0] == WITH_TEXT && history[1] == DROPPED && history[2] == REUSED;
  }

  lemma {:induction false} OneText(w: Schema, n: nat, m: Message, text: seq<byte>)
    requires WellFormed(w) && w.fields == [Field(n, Text)] && m == map[n := TextValue(text)] && text != []
    ensures Canonical(w, m)
    ensures Serialize(w, m) == EncodeAll([Record(n, Bytes(text))])
  {
    LookupDeclared(w, 0);
    var r := Record(n, Bytes(text));
    assert RecordsOf(w, 0, m) + RecordOf(w, 0, m) == [r];
  }

  lemma {:induction false} OneTextMissing(r: Schema, n: nat, text: seq<byte>)
    requires Declares(r, n) && WireTypeOf(Lookup(r, n).value) != 2
    ensures StoreAll(r, map[], [Record(n, Bytes(text))]) == Some(map[])
  {
    var rec := Record(n, Bytes(text));
    assert [rec][..0] == [];
    assert StoreAll(r, map[], [rec]) == Store(r, map[], rec);
  }

  // After such a reuse the last version does not read what the first one wrote: the value is silently
  // missing.
  lemma {:induction false} ReuseLosesValue(m: Message, text: seq<byte>)
    requires m == map[7 := TextValue(text)] && 0 < |text| < U64
    ensures Canonical(WITH_TEXT, m)
    ensures Parse(REUSED, Serialize(WITH_TEXT, m)) == Some(map[])
  {
    LookupDeclared(REUSED, 0);
    OneText(WITH_TEXT, 7, m, text);
    OneTextMissing(REUSED, 7, text);
    RoundTripAll([Record(7, Bytes(text))]);
  }
}
