/**
  "Last one wins", as algebra: parsing concatenated bytes merges the parsed messages, and only the
  order of records with the same number matters.
  */
module Merging {
  import opened Basics
  import opened Varint
  import opened Wire
  import opened Schemas
  import opened Codec

  // b over a: the later scalar wins, nested messages are merged.
  function Merge(s: Schema, a: Message, b: Message): Message
    decreases s
  {
    map n | n in a.Keys + b.Keys ::
      if n !in b then a[n]
      else if n in a && Declares(s, n) && Lookup(s, n).value.Nested?
      then MessageValue(Merge(Lookup(s, n).value.schema, SubOf(a, n), SubOf(b, n)))
      else b[n]
  }

  function MergeInto(s: Schema, a: Message, b: Option<Message>): Option<Message> {
    match b
    case None => None
    case Some(m) => Some(Merge(s, a, m))
  }

  // The two messages agree on field n: both have it, with the same value, or neither does.
  predicate AgreeOn(a: Message, b: Message, n: nat) {
    (n in a <==> n in b) && (n in a ==> a[n] == b[n])
  }

  lemma {:induction false} SameMessage(x: Message, y: Message)
    requires forall n: nat :: AgreeOn(x, y, n)
    ensures x == y
  {
    forall n: nat
      ensures n in x <==> n in y
      ensures n in x ==> x[n] == y[n]
    {
      assert AgreeOn(x, y, n);
    }
  }

  lemma {:induction false} MergeEmpty(s: Schema, m: Message)
    ensures Merge(s, map[], m) == m == Merge(s, m, map[])
  {
  }

  lemma {:induction false} SubOfMerge(s: Schema, a: Message, b: Message, n: nat)
    requires Declares(s, n) && Lookup(s, n).value.Nested?
    ensures SubOf(Merge(s, a, b), n) == Merge(Lookup(s, n).value.schema, SubOf(a, n), SubOf(b, n))
  {
    MergeEmpty(Lookup(s, n).value.schema, SubOf(a, n));
    MergeEmpty(Lookup(s, n).value.schema, SubOf(b, n));
  }

  lemma {:induction false} MergeAssociative(s: Schema, a: Message, b: Message, c: Message)
    ensures Merge(s, Merge(s, a, b), c) == Merge(s, a, Merge(s, b, c))
    decreases s, 1
  {
    var left, right := Merge(s, Merge(s, a, b), c), Merge(s, a, Merge(s, b, c));
    forall n: nat
      ensures AgreeOn(left, right, n)
    {
      MergeAssociativeAt(s, a, b, c, n);
    }
    SameMessage(left, right);
  }

  lemma {:induction false} MergeAssociativeAt(s: Schema, a: Message, b: Message, c: Message, n: nat)
    ensures AgreeOn(Merge(s, Merge(s, a, b), c), Merge(s, a, Merge(s, b, c)), n)
    decreases s, 0
  {
    if Declares(s, n) && Lookup(s, n).value.Nested? && n in c {
      var sub := Lookup(s, n).value.schema;
      MergeAssociative(sub, SubOf(a, n), SubOf(b, n), SubOf(c, n));
      SubOfMerge(s, a, b, n);
      SubOfMerge(s, b, c, n);
      MergeEmpty(sub, SubOf(b, n));
      MergeEmpty(sub, SubOf(c, n));
    }
  }

  // Storing a record after a merge is merging what the record adds.
  lemma {:induction false} StoreMerges(s: Schema, m: Message, x: Message, r: Record)
    ensures Store(s, Merge(s, m, x), r) == MergeInto(s, m, Store(s, x, r))
    decreases s, 0, 0
  {
    if Declares(s, r.field) {
      var kind := Lookup(s, r.field).value;
      var n := r.field;
      if kind.Nested? && r.payload.Bytes? {
        var sub := kind.schema;
        var mx := Merge(s, m, x);
        ParseMerges(sub, SubOf(mx, n), r.payload.data);
        ParseMerges(sub, SubOf(x, n), r.payload.data);
        if Parse(sub, r.payload.data).Some? {
          StoreNestedMerges(s, m, x, n, sub, Parse(sub, r.payload.data).value);
        }
      } else if ReadScalar(kind, r.payload).Some? {
        var v := ReadScalar(kind, r.payload).value;
        assert Merge(s, m, x)[n := v] == Merge(s, m, x[n := v]);
      }
    }
  }

  lemma {:induction false} StoreNestedMerges(s: Schema, m: Message, x: Message, n: nat, sub: Schema, p: Message)
    requires Lookup(s, n) == Some(Nested(sub))
    ensures Merge(s, m, x)[n := MessageValue(Merge(sub, SubOf(Merge(s, m, x), n), p))]
            == Merge(s, m, x[n := MessageValue(Merge(sub, SubOf(x, n), p))])
  {
    SubOfMerge(s, m, x, n);
    MergeAssociative(sub, SubOf(m, n), SubOf(x, n), p);
    MergeEmpty(sub, Merge(sub, SubOf(x, n), p));
    StoreOver(s, m, x, n, Merge(sub, SubOf(x, n), p));
  }

  // Merging in a nested message stored over x is merging x, then storing the merged one.
  lemma {:induction false} StoreOver(s: Schema, m: Message, x: Message, n: nat, p: Message)
    requires Declares(s, n) && Lookup(s, n).value.Nested?
    ensures Merge(s, m, x[n := MessageValue(p)])
            == Merge(s, m, x)[n := MessageValue(Merge(Lookup(s, n).value.schema, SubOf(m, n), p))]
  {
    MergeEmpty(Lookup(s, n).value.schema, p);
  }

  lemma {:induction false} StoreAllMerges(s: Schema, m: Message, x: Message, rs: seq<Record>)
    ensures StoreAll(s, Merge(s, m, x), rs) == MergeInto(s, m, StoreAll(s, x, rs))
    decreases s, 1, |rs|
  {
    if rs != [] {
      var n := |rs| - 1;
      StoreAllMerges(s, m, x, rs[..n]);
      if StoreAll(s, x, rs[..n]).Some? {
        StoreMerges(s, m, StoreAll(s, x, rs[..n]).value, rs[n]);
      }
    }
  }

  // Parsing on top of a message is merging into it what the bytes parse to.
  lemma {:induction false} ParseMerges(s: Schema, m: Message, b: seq<byte>)
    ensures ParseOnto(s, m, b) == MergeInto(s, m, Parse(s, b))
    decreases s, 2, 0
  {
    MergeEmpty(s, m);
    if DecodeAll(b).Some? {
      StoreAllMerges(s, m, map[], DecodeAll(b).value);
    }
  }

  lemma {:induction false} StoreAllAppend(s: Schema, m: Message, first: seq<Record>, second: seq<Record>)
    ensures StoreAll(s, m, first + second)
            == match StoreAll(s, m, first)
               case None => None
               case Some(x) => StoreAll(s, x, second)
    decreases |second|
  {
    if second == [] {
      assert first + second == first;
    } else {
      var n := |second| - 1;
      assert (first + second)[..|first + second| - 1] == first + second[..n];
      StoreAllAppend(s, m, first, second[..n]);
    }
  }

  // For all bytes that parse: parsing the concatenation is merging the parsed messages.
  lemma {:induction false} ConcatenationMerges(s: Schema, a: seq<byte>, b: seq<byte>)
    requires Parse(s, a).Some?
    ensures Parse(s, a + b) == MergeInto(s, Parse(s, a).value, Parse(s, b))
  {
    DecodeConcatenation(a, b);
    ParseMerges(s, Parse(s, a).value, b);
    if DecodeAll(b).Some? {
      StoreAllAppend(s, map[], DecodeAll(a).value, DecodeAll(b).value);
    }
  }

  // Last one wins, spelled out for one field of the concatenation: the second part's value where it has
  // one, the first part's otherwise; of a nested message the two parts are merged the same way.
  lemma {:induction false} LastOneWins(s: Schema, a: seq<byte>, b: seq<byte>, n: nat)
    requires Parse(s, a).Some? && Parse(s, b).Some?
    ensures Parse(s, a + b).Some?
    ensures var x, y, both := Parse(s, a).value, Parse(s, b).value, Parse(s, a + b).value;
            && (n in both <==> n in x || n in y)
            && (n in x && n !in y ==> both[n] == x[n])
            && (n in y && n !in x ==> both[n] == y[n])
            && (n in x && n in y && !(Declares(s, n) && Lookup(s, n).value.Nested?) ==> both[n] == y[n])
            && (n in x && n in y && Declares(s, n) && Lookup(s, n).value.Nested? ==>
                  both[n] == MessageValue(Merge(Lookup(s, n).value.schema, SubOf(x, n), SubOf(y, n))))
  {
    ConcatenationMerges(s, a, b);
  }

  // ---- order ----

  // The records of one field, in order.
  function OfField(rs: seq<Record>, n: nat): seq<Record> {
    if rs == [] then []
    else
      var last := rs[|rs| - 1];
      OfField(rs[..|rs| - 1], n) + if last.field == n then [last] else []
  }

  // Whether storing a record fails does not depend on what is already there.
  predicate Malformed(s: Schema, r: Record) {
    Store(s, map[], r).None?
  }

  lemma {:induction false} StoreFailsAlone(s: Schema, m: Message, r: Record)
    ensures Store(s, m, r).None? <==> Malformed(s, r)
  {
    MergeEmpty(s, m);
    StoreMerges(s, m, map[], r);
  }

  lemma {:induction false} StoreAllFails(s: Schema, m: Message, rs: seq<Record>)
    ensures StoreAll(s, m, rs).None? <==> exists r :: r in rs && Malformed(s, r)
    decreases |rs|
  {
    if rs != [] {
      var n := |rs| - 1;
      StoreAllFails(s, m, rs[..n]);
      assert rs == rs[..n] + [rs[n]];
      if StoreAll(s, m, rs[..n]).Some? {
        StoreFailsAlone(s, StoreAll(s, m, rs[..n]).value, rs[n]);
      }
    }
  }

  lemma {:induction false} StoreTouchesOneField(s: Schema, a: Message, b: Message, r: Record, n: nat)
    requires AgreeOn(a, b, n) && !Malformed(s, r)
    ensures Store(s, a, r).Some? && Store(s, b, r).Some?
    ensures r.field == n ==> AgreeOn(Store(s, a, r).value, Store(s, b, r).value, n)
    ensures r.field != n ==> AgreeOn(Store(s, a, r).value, b, n)
  {
    StoreFailsAlone(s, a, r);
    StoreFailsAlone(s, b, r);
  }

  // The value of a field depends only on that field's own records.
  lemma {:induction false} FieldDependsOnItsRecords(s: Schema, m: Message, rs: seq<Record>, n: nat)
    requires forall r :: r in rs ==> !Malformed(s, r)
    ensures StoreAll(s, m, rs).Some? && StoreAll(s, m, OfField(rs, n)).Some?
    ensures AgreeOn(StoreAll(s, m, rs).value, StoreAll(s, m, OfField(rs, n)).value, n)
    decreases |rs|
  {
    if rs != [] {
      var k := |rs| - 1;
      FieldDependsOnItsRecords(s, m, rs[..k], n);
      var own := OfField(rs[..k], n);
      StoreTouchesOneField(s, StoreAll(s, m, rs[..k]).value, StoreAll(s, m, own).value, rs[k], n);
      assert (own + [rs[k]])[..|own|] == own;
      assert own + [] == own;
    }
  }

  lemma {:induction false} InOfField(rs: seq<Record>, r: Record)
    ensures r in rs <==> r in OfField(rs, r.field)
    decreases |rs|
  {
    if rs != [] {
      var k := |rs| - 1;
      InOfField(rs[..k], r);
      assert rs == rs[..k] + [rs[k]];
    }
  }

  // Records may arrive in any order that keeps each field's own records in order: the outcome, be
  // it a message or a DecodeError, is the same.
  lemma {:induction false} OrderOfFieldsIsFree(s: Schema, m: Message, rs: seq<Record>, other: seq<Record>)
    requires forall n: nat :: OfField(rs, n) == OfField(other, n)
    ensures StoreAll(s, m, rs) == StoreAll(s, m, other)
  {
    forall r: Record
      ensures r in rs <==> r in other
    {
      InOfField(rs, r);
      InOfField(other, r);
      assert OfField(rs, r.field) == OfField(other, r.field);
    }
    StoreAllFails(s, m, rs);
    StoreAllFails(s, m, other);
    if StoreAll(s, m, rs).Some? {
      var x, y := StoreAll(s, m, rs).value, StoreAll(s, m, other).value;
      forall n: nat
        ensures AgreeOn(x, y, n)
      {
        FieldDependsOnItsRecords(s, m, rs, n);
        FieldDependsOnItsRecords(s, m, other, n);
        assert OfField(rs, n) == OfField(other, n);
      }
      SameMessage(x, y);
    }
  }

  // In particular, records whose numbers all differ may be permuted freely.
  lemma {:induction false} DistinctFieldsPermute(s: Schema, m: Message, rs: seq<Record>, other: seq<Record>)
    requires multiset(rs) == multiset(other)
    requires forall i, j :: 0 <= i < j < |rs| ==> rs[i].field != rs[j].field
    ensures StoreAll(s, m, rs) == StoreAll(s, m, other)
  {
    forall n: nat
      ensures OfField(rs, n) == OfField(other, n)
    {
      OnlyOne(rs, n);
      SameCounts(rs, other, n);
      SingletonFromCounts(OfField(rs, n), OfField(other, n));
    }
    OrderOfFieldsIsFree(s, m, rs, other);
  }

  lemma {:induction false} OnlyOne(rs: seq<Record>, n: nat)
    requires forall i, j :: 0 <= i < j < |rs| ==> rs[i].field != rs[j].field
    ensures |OfField(rs, n)| <= 1
    ensures OfField(rs, n) != [] ==> exists i :: 0 <= i < |rs| && rs[i].field == n
    decreases |rs|
  {
    if rs != [] {
      OnlyOne(rs[..|rs| - 1], n);
    }
  }

  lemma {:induction false} CountOfField(rs: seq<Record>, n: nat, r: Record)
    ensures multiset(OfField(rs, n))[r] == if r.field == n then multiset(rs)[r] else 0
    decreases |rs|
  {
    if rs != [] {
      var k := |rs| - 1;
      CountOfField(rs[..k], n, r);
      assert rs == rs[..k] + [rs[k]];
    }
  }

  lemma {:induction false} SameCounts(rs: seq<Record>, other: seq<Record>, n: nat)
    requires multiset(rs) == multiset(other)
    ensures multiset(OfField(rs, n)) == multiset(OfField(other, n))
  {
    forall r: Record
      ensures multiset(OfField(rs, n))[r] == multiset(OfField(other, n))[r]
    {
      CountOfField(rs, n, r);
      CountOfField(other, n, r);
    }
  }

  lemma {:induction false} SingletonFromCounts(a: seq<Record>, b: seq<Record>)
    requires |a| <= 1 && multiset(a) == multiset(b)
    ensures a == b
  {
    assert |multiset(a)| == |a| && |multiset(b)| == |b|;
    if a != [] {
      assert a == [a[0]] && b == [b[0]];
      assert b[0] in multiset(b);
    }
  }
}
