/** The two index builders over the course records: an exact-key hash index
    (`buildCourseIndex`) and the insertion sequence of the trie index
    (`buildCourseTrieIndex`). The trie's own structure is abstracted to the log
    of its `Insert` calls. */
module CourseIndex {
  import opened Records

  /** Why a build fails. */
  datatype IndexError =
    | EmptyData   // no records at all
    | MissingKey  // a record lacks the index field
    | NotString   // a record's index field is not a string

  /** The problem, if any, one record has as an index source. */
  function KeyProblem(item: Record, indexKey: string): Option<IndexError> {
    if indexKey !in item then Some(MissingKey)
    else if !item[indexKey].Str? then Some(NotString)
    else None
  }

  /** Every record carries a string under the index field. */
  predicate AllKeyed(data: seq<Record>, indexKey: string) {
    forall i | 0 <= i < |data| :: KeyProblem(data[i], indexKey).None?
  }

  /** The position of the first record with a problem, or `|data|` if none has. */
  function FirstBad(data: seq<Record>, indexKey: string): (k: nat)
    ensures k <= |data|
    ensures forall j | 0 <= j < k :: KeyProblem(data[j], indexKey).None?
    ensures k < |data| ==> KeyProblem(data[k], indexKey).Some?
  {
    if data == [] then 0
    else if KeyProblem(data[0], indexKey).Some? then 0
    else 1 + FirstBad(data[1..], indexKey)
  }

  function KeyOf(item: Record, indexKey: string): string
    requires KeyProblem(item, indexKey).None?
  {
    item[indexKey].s
  }

  /** The index fields of all records, in order. */
  function KeysOf(data: seq<Record>, indexKey: string): seq<string>
    requires AllKeyed(data, indexKey)
  {
    seq(|data|, i requires 0 <= i < |data| => KeyOf(data[i], indexKey))
  }

  /** The hash index after inserting every record in order. */
  function KeyIndex(data: seq<Record>, indexKey: string): map<string, Record>
    requires AllKeyed(data, indexKey)
  {
    if data == [] then map[]
    else
      var n := |data| - 1;
      KeyIndex(data[..n], indexKey)[KeyOf(data[n], indexKey) := data[n]]
  }

  method BuildCourseIndex(data: seq<Record>, indexKey: string)
    returns (r: Result<map<string, Record>, IndexError>)
    ensures data == [] ==> r == Err(EmptyData)
    ensures data != [] && FirstBad(data, indexKey) < |data| ==>
      r == Err(KeyProblem(data[FirstBad(data, indexKey)], indexKey).value)
    ensures data != [] && FirstBad(data, indexKey) == |data| ==>
      r == Ok(KeyIndex(data, indexKey))
  {
    if |data| == 0 {
      return Err(EmptyData);
    }
    var index: map<string, Record> := map[];
    var i := 0;
    while i < |data|
      invariant i <= |data|
      invariant AllKeyed(data[..i], indexKey)
      invariant index == KeyIndex(data[..i], indexKey)
    {
      var item := data[i];
      if indexKey in item {
        var value := item[indexKey];
        if !value.Str? {
          return Err(NotString);
        }
        assert data[..i + 1][..i] == data[..i];
        index := index[value.s := item];
      } else {
        return Err(MissingKey);
      }
      i := i + 1;
    }
    assert data[..i] == data;
    return Ok(index);
  }

  /** The index has exactly the records' index fields as keys. */
  lemma {:induction false} KeyIndexKeys(data: seq<Record>, indexKey: string)
    requires AllKeyed(data, indexKey)
    ensures forall k :: k in KeyIndex(data, indexKey) <==> k in KeysOf(data, indexKey)
  {
    if data != [] {
      var n := |data| - 1;
      KeyIndexKeys(data[..n], indexKey);
      assert KeysOf(data, indexKey) == KeysOf(data[..n], indexKey) + [KeyOf(data[n], indexKey)];
    }
  }

  /** Last write wins: under a key, the index holds the last record bearing it. */
  lemma {:induction false} KeyIndexLastWins(data: seq<Record>, indexKey: string, i: nat)
    requires AllKeyed(data, indexKey) && i < |data|
    requires forall j | i < j < |data| :: KeyOf(data[j], indexKey) != KeyOf(data[i], indexKey)
    ensures KeyOf(data[i], indexKey) in KeyIndex(data, indexKey)
    ensures KeyIndex(data, indexKey)[KeyOf(data[i], indexKey)] == data[i]
  {
    var n := |data| - 1;
    if i < n {
      KeyIndexLastWins(data[..n], indexKey, i);
    }
  }

  /** Every indexed record is one of the records and bears its key. */
  lemma {:induction false} KeyIndexValues(data: seq<Record>, indexKey: string)
    requires AllKeyed(data, indexKey)
    ensures forall k | k in KeyIndex(data, indexKey) ::
      && KeyIndex(data, indexKey)[k] in data
      && KeyProblem(KeyIndex(data, indexKey)[k], indexKey).None?
      && KeyOf(KeyIndex(data, indexKey)[k], indexKey) == k
  {
    if data != [] {
      var n := |data| - 1;
      KeyIndexValues(data[..n], indexKey);
      assert forall r | r in data[..n] :: r in data;
    }
  }

  /** The index never has more entries than there are records, and has as many
      exactly when the records' keys are pairwise distinct. */
  lemma {:induction false} KeyIndexSize(data: seq<Record>, indexKey: string)
    requires AllKeyed(data, indexKey)
    ensures |KeyIndex(data, indexKey)| <= |data|
    ensures |KeyIndex(data, indexKey)| == |data| <==> Distinct(KeysOf(data, indexKey))
  {
    if data != [] {
      var n := |data| - 1;
      var pre := data[..n];
      var k := KeyOf(data[n], indexKey);
      KeyIndexSize(pre, indexKey);
      KeyIndexKeys(pre, indexKey);
      var keys, preKeys := KeysOf(data, indexKey), KeysOf(pre, indexKey);
      assert keys == preKeys + [k];
      var idx, preIdx := KeyIndex(data, indexKey), KeyIndex(pre, indexKey);
      assert idx.Keys == preIdx.Keys + {k};
      if k in preIdx {
        assert |idx| == |preIdx|;
        var j :| 0 <= j < n && preKeys[j] == k;
        assert keys[j] == keys[n];
      } else {
        assert |idx| == |preIdx| + 1;
        assert k !in preKeys;
        DistinctAppend(preKeys, k);
      }
    }
  }

  /** Appending a new element keeps a sequence distinct, and only then. */
  lemma DistinctAppend(s: seq<string>, x: string)
    requires x !in s
    ensures Distinct(s + [x]) <==> Distinct(s)
  {
    var t := s + [x];
    assert forall a | 0 <= a < |s| :: t[a] == s[a];
    if Distinct(s) {
      forall a, b | 0 <= a < b < |t| ensures t[a] != t[b] {
        if b == |s| {
          assert s[a] in s;
        }
      }
    }
  }

  /** The trie, seen through the calls made on it: each `Insert` adds a key
      string and the record it is associated with. */
  class Trie {
    var inserted: seq<(string, Record)>

    constructor ()
      ensures inserted == []
    {
      inserted := [];
    }

    method Insert(key: string, value: Record)
      modifies this
      ensures inserted == old(inserted) + [(key, value)]
    {
      inserted := inserted + [(key, value)];
    }
  }

  /** One insertion per record, in order, with that record's key string. */
  function Insertions(data: seq<Record>, indexKey: string): seq<(string, Record)>
    requires AllKeyed(data, indexKey)
  {
    seq(|data|, i requires 0 <= i < |data| => (KeyOf(data[i], indexKey), data[i]))
  }

  method BuildCourseTrieIndex(data: seq<Record>, indexKey: string)
    returns (r: Result<Trie, IndexError>)
    ensures data == [] ==> r == Err(EmptyData)
    ensures data != [] && FirstBad(data, indexKey) < |data| ==>
      r == Err(KeyProblem(data[FirstBad(data, indexKey)], indexKey).value)
    ensures data != [] && FirstBad(data, indexKey) == |data| ==>
      r.Ok? && fresh(r.value) && r.value.inserted == Insertions(data, indexKey)
  {
    if |data| == 0 {
      return Err(EmptyData);
    }
    var t := new Trie();
    var i := 0;
    while i < |data|
      invariant i <= |data|
      invariant AllKeyed(data[..i], indexKey)
      invariant fresh(t) && t.inserted == Insertions(data[..i], indexKey)
    {
      var item := data[i];
      if indexKey !in item {
        return Err(MissingKey);
      }
      var val := item[indexKey];
      if !val.Str? {
        return Err(NotString);
      }
      assert data[..i + 1][..i] == data[..i];
      t.Insert(val.s, item);
      i := i + 1;
    }
    assert data[..i] == data;
    return Ok(t);
  }
}
