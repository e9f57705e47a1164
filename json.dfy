/** The JSON values that the handlers write as response bodies, as
    encoding/json produces them: object members keep the order of the struct
    fields they come from. */
module Json {

  /** A Go time.Time, kept opaque: only its identity matters here. */
  datatype Time = Time(unixNanos: int)

  /** A Go float64, kept opaque as its IEEE 754 bit pattern. */
  datatype Float64 = Float64(bits: bv64)

  /** JTime and JFloat stand for the string (RFC 3339) and number encodings
      of an opaque time or float; their text is not modelled. */
  datatype Json =
    | JNull
    | JInt(i: int)
    | JStr(s: string)
    | JTime(t: Time)
    | JFloat(f: Float64)
    | JArr(items: seq<Json>)
    | JObj(members: seq<Member>)

  datatype Member = Member(key: string, value: Json)

  /** The keys of an object's members, in order. */
  function Keys(ms: seq<Member>): (ks: seq<string>)
    ensures |ks| == |ms|
    ensures forall i :: 0 <= i < |ms| ==> ks[i] == ms[i].key
  {
    if ms == [] then [] else [ms[0].key] + Keys(ms[1..])
  }

  /** True when key k names a member anywhere inside j, at any depth. */
  predicate Mentions(j: Json, k: string)
    decreases j, 1
  {
    match j
    case JArr(items) => ItemsMention(items, k)
    case JObj(ms) => MembersMention(ms, k)
    case _ => false
  }

  predicate ItemsMention(items: seq<Json>, k: string)
    decreases items, 0
  {
    |items| > 0 && (Mentions(items[0], k) || ItemsMention(items[1..], k))
  }

  predicate MembersMention(ms: seq<Member>, k: string)
    decreases ms, 0
  {
    |ms| > 0 && (ms[0].key == k || Mentions(ms[0].value, k) || MembersMention(ms[1..], k))
  }

  /** An object's members mention k exactly when one of its members is named
      k or has a value mentioning k. */
  lemma {:induction false} MembersMentionAt(ms: seq<Member>, k: string)
    ensures MembersMention(ms, k) <==>
            exists i :: 0 <= i < |ms| && (ms[i].key == k || Mentions(ms[i].value, k))
  {
    if ms != [] {
      MembersMentionAt(ms[1..], k);
      if MembersMention(ms[1..], k) {
        var i :| 0 <= i < |ms[1..]| && (ms[1..][i].key == k || Mentions(ms[1..][i].value, k));
        assert ms[i + 1] == ms[1..][i];
      }
      forall i | 1 <= i < |ms| && (ms[i].key == k || Mentions(ms[i].value, k))
        ensures MembersMention(ms[1..], k)
      {
        assert ms[1..][i - 1] == ms[i];
      }
    }
  }
}
