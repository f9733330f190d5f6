/**
  Message schemas: numbered fields of a scalar kind or another schema, and the numbers a schema
  has retired for good. Field names play no part on the wire and are left out.
  */
module Schemas {
  import opened Basics
  import opened Wire

  datatype Kind =
    | Text          // string, kept as its UTF-8 bytes
    | Double        // kept as its eight little-endian bytes
    | Int32         // int32 and enums
    | Int64
    | Nested(schema: Schema)

  datatype Field = Field(number: nat, kind: Kind)

  datatype Schema = Schema(fields: seq<Field>, reserved: set<nat>)

  function Lookup(s: Schema, n: nat): (r: Option<Kind>)
    ensures r.Some? ==> r.value < s
    ensures r.Some? <==> exists i :: 0 <= i < |s.fields| && s.fields[i].number == n
  {
    match Find(s.fields, n)
    case None => None
    case Some(i) => Some(s.fields[i].kind)
  }

  // Index of the first field with a number.
  function Find(fields: seq<Field>, n: nat): (r: Option<nat>)
    ensures r.Some? ==> r.value < |fields| && fields[r.value].number == n
    ensures r.None? ==> forall i :: 0 <= i < |fields| ==> fields[i].number != n
  {
    if fields == [] then None
    else if fields[0].number == n then Some(0)
    else
      match Find(fields[1..], n)
      case None => None
      case Some(i) => Some(i + 1)
  }

  predicate Declares(s: Schema, n: nat) {
    Lookup(s, n).Some?
  }

  // Field numbers are in range, unique and not reserved, in nested schemas as well.
  ghost predicate WellFormed(s: Schema) {
    && (forall i :: 0 <= i < |s.fields| ==>
          && 1 <= s.fields[i].number <= MAX_FIELD
          && s.fields[i].number !in s.reserved
          && (s.fields[i].kind.Nested? ==> WellFormed(s.fields[i].kind.schema)))
    && (forall i, j :: 0 <= i < j < |s.fields| ==> s.fields[i].number != s.fields[j].number)
  }

  lemma {:induction false} LookupDeclared(s: Schema, i: nat)
    requires WellFormed(s) && i < |s.fields|
    ensures Lookup(s, s.fields[i].number) == Some(s.fields[i].kind)
  {
    var j := Find(s.fields, s.fields[i].number).value;
    assert j == i;
  }
}
