/** The extraction record: one processed image and the fields read from it. */
module Records {
  import opened Wrappers

  /** The model's answer: field name to string value or `null`. */
  type Fields = map<string, Option<string>>

  /** One table row: `{ id, imageName, data }`. */
  datatype Record = Record(id: int, imageName: string, data: Fields)

  /** `records.map(item => item.id)`. */
  function Ids(records: seq<Record>): (ids: seq<int>)
    ensures |ids| == |records|
    ensures forall i :: 0 <= i < |records| ==> ids[i] == records[i].id
  {
    seq(|records|, i requires 0 <= i < |records| => records[i].id)
  }

  /** Every element differs from every other. */
  predicate Distinct<T(==)>(s: seq<T>)
  {
    forall i, j :: 0 <= i < j < |s| ==> s[i] != s[j]
  }

  /** Every field name that occurs in at least one record. */
  function KeyUnion(records: seq<Record>): set<string>
  {
    set r, k | r in records && k in r.data :: k
  }

  lemma KeyUnionAppend(a: seq<Record>, b: seq<Record>)
    ensures KeyUnion(a + b) == KeyUnion(a) + KeyUnion(b)
  {
  }
}
