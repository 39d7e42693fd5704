/** The cache-or-compute step of the search handler: look the query's key up in
    the result cache, serve a decodable hit, otherwise run the linear search and,
    on a plain miss, store its result. The key-value store is an abstract map;
    the JSON decoding of a stored result either succeeds or fails. */
module SearchCache {
  import opened Records
  import opened CourseSearch

  /** The first position of `c` in `s`, or `|s|` when it does not occur. */
  function IndexOf(s: string, c: char): (k: nat)
    ensures k <= |s| && (k < |s| ==> s[k] == c)
    ensures forall j | 0 <= j < k :: s[j] != c
  {
    if s == [] then 0 else if s[0] == c then 0 else 1 + IndexOf(s[1..], c)
  }

  /** Reads a key back as its two filters, splitting at the first `:` after
      the `search:` prefix. */
  function ParseCacheKey(key: string): Option<(string, string)> {
    if |key| < 7 || key[..7] != "search:" then None
    else
      var rest := key[7..];
      var k := IndexOf(rest, ':');
      if k == |rest| then None else Some((rest[..k], rest[k + 1..]))
  }

  /** `fmt.Sprintf("search:%s:%s", courseName, instructor)`. When the name
      filter holds no `:`, the key gives both filters back. */
  function CacheKey(courseName: string, instructor: string): (key: string)
    ensures ':' !in courseName ==> ParseCacheKey(key) == Some((courseName, instructor))
  {
    var key := "search:" + courseName + ":" + instructor;
    assert key[..7] == "search:";
    assert key[7..] == courseName + ":" + instructor;
    assert key[7..][..|courseName|] == courseName && key[7..][|courseName| + 1..] == instructor;
    FirstColon(courseName, instructor);
    key
  }

  lemma FirstColon(courseName: string, instructor: string)
    ensures ':' !in courseName ==> IndexOf(courseName + ":" + instructor, ':') == |courseName|
  {
    var rest := courseName + ":" + instructor;
    var k := IndexOf(rest, ':');
    assert rest[|courseName|] == ':';
    if ':' !in courseName && k < |courseName| {
      assert false;
    }
  }

  /** Distinct filter pairs get distinct keys as long as the name filters hold
      no `:` (the instructor filter may hold any characters). */
  lemma CacheKeyInjective(n1: string, i1: string, n2: string, i2: string)
    requires ':' !in n1 && ':' !in n2
    requires CacheKey(n1, i1) == CacheKey(n2, i2)
    ensures n1 == n2 && i1 == i2
  {
    var k := CacheKey(n1, i1);
    assert k == "search:" + n1 + ":" + i1;
    assert k == "search:" + n2 + ":" + i2;
    assert k[7 + |n1|] == ':' && k[7 + |n2|] == ':';
    if |n1| < |n2| {
      assert false;
    } else if |n2| < |n1| {
      assert false;
    }
    assert n1 == k[7..7 + |n1|] == n2;
    assert i1 == k[8 + |n1|..] == i2;
  }

  /** Without that restriction the key is not injective: two different queries
      share an entry, and their answers differ on a one-record store. */
  lemma CacheKeyCollision()
    ensures CacheKey("a:b", "") == CacheKey("a", "b:")
    ensures var r := map[NameField := Str("a"), InstructorField := Str("b:")];
      Matching([r], "a:b", "") == [] && Matching([r], "a", "b:") == [r]
  {
    var r := map[NameField := Str("a"), InstructorField := Str("b:")];
    assert [r][..0] == [];
    assert NameField[0] != InstructorField[0];
    assert StringField(r, NameField) == "a" && StringField(r, InstructorField) == "b:";
    assert OccursAt("a", "a", 0) && OccursAt("b:", "b:", 0);
    assert !Matches(r, "a:b", "");
  }

  /** The delimiter keeps ("A", "B") and ("AB", "") apart. */
  lemma CacheKeySeparatesExample()
    ensures CacheKey("A", "B") != CacheKey("AB", "")
  {
    assert CacheKey("A", "B")[8] == ':' != CacheKey("AB", "")[8];
  }

  /** What the key-value store holds under a key: the serialized result list,
      or bytes that do not decode. */
  datatype Blob = Encoded(records: seq<Record>) | Corrupt

  /** `json.Unmarshal` of a stored blob. */
  function Unmarshal(b: Blob): Option<seq<Record>> {
    match b
    case Encoded(rs) => Some(rs)
    case Corrupt => None
  }

  /** The result cache the search handler talks to. */
  class ResultCache {
    var entries: map<string, Blob>

    constructor ()
      ensures entries == map[]
    {
      entries := map[];
    }

    /** `clearCacheOnStartup`: `FlushDB` empties the store when it answers and
        leaves it as it was when it does not; an empty store is coherent with
        every record list. */
    method ClearCacheOnStartup(redisUp: bool)
      modifies this
      ensures entries == if redisUp then map[] else old(entries)
      ensures redisUp ==> forall courses :: Coherent(courses)
    {
      if redisUp {
        entries := map[];
      }
    }

    /** Every decodable entry stored for a query whose name filter holds no `:`
        is that query's live answer over `courses`. */
    ghost predicate Coherent(courses: seq<Record>)
      reads this
    {
      forall n, i | ':' !in n && CacheKey(n, i) in entries ::
        Unmarshal(entries[CacheKey(n, i)]).Some? ==>
          Unmarshal(entries[CacheKey(n, i)]).value == Matching(courses, n, i)
    }

    /** The search handler's cache step. `redisUp` says whether the store
        answers (a failing Get is a miss and the Set then fails as well);
        `marshalOk` says whether the result serializes. `scanned` reports
        whether the linear search ran. */
    method Search(courses: seq<Record>, courseName: string, instructor: string,
                  redisUp: bool, marshalOk: bool)
      returns (results: seq<Record>, scanned: bool)
      modifies this
      ensures var key := CacheKey(courseName, instructor);
        var hit := redisUp && key in old(entries);
        && (hit && Unmarshal(old(entries)[key]).Some? ==>
              results == Unmarshal(old(entries)[key]).value && !scanned && entries == old(entries))
        && (hit && Unmarshal(old(entries)[key]).None? ==>
              results == Matching(courses, courseName, instructor) && scanned && entries == old(entries))
        && (!hit ==>
              && results == Matching(courses, courseName, instructor) && scanned
              && entries == if redisUp && marshalOk then old(entries)[key := Encoded(results)] else old(entries))
      ensures old(Coherent(courses)) && ':' !in courseName ==>
        results == Matching(courses, courseName, instructor) && Coherent(courses)
    {
      var key := CacheKey(courseName, instructor);
      var cached: Option<Blob> := if redisUp && key in entries then Some(entries[key]) else None;
      if cached.Some? {
        var decoded := Unmarshal(cached.value);
        if decoded.Some? {
          results, scanned := decoded.value, false;
        } else {
          results := SearchCourses(courses, courseName, instructor);
          scanned := true;
        }
      } else {
        results := SearchCourses(courses, courseName, instructor);
        scanned := true;
        if redisUp && marshalOk {
          entries := entries[key := Encoded(results)];
        }
        if ':' !in courseName {
          forall n, i | ':' !in n && CacheKey(n, i) == key
            ensures n == courseName && i == instructor
          {
            CacheKeyInjective(n, i, courseName, instructor);
          }
        }
      }
    }
  }

  /** Repeating a query against a working store gives the same answer, and the
      second call is served from the cache unless a corrupt entry was there. */
  method SearchTwice(cache: ResultCache, courses: seq<Record>, courseName: string, instructor: string)
    returns (first: seq<Record>, second: seq<Record>, rescanned: bool)
    modifies cache
    ensures second == first
    ensures var key := CacheKey(courseName, instructor);
      key !in old(cache.entries) || Unmarshal(old(cache.entries)[key]).Some? ==> !rescanned
  {
    var scanned;
    first, scanned := cache.Search(courses, courseName, instructor, true, true);
    second, rescanned := cache.Search(courses, courseName, instructor, true, true);
  }

  /** The collision served: on a one-record store, the query ("a:b", "") fills
      the entry that the query ("a", "b:") then hits, so the second query is
      answered with the first one's empty list instead of the record. */
  method CollidingQueries() returns (courses: seq<Record>, first: seq<Record>, second: seq<Record>)
    ensures |courses| == 1
    ensures first == second == []
    ensures second != Matching(courses, "a", "b:")
  {
    var r := map[NameField := Str("a"), InstructorField := Str("b:")];
    courses := [r];
    var cache := new ResultCache();
    CacheKeyCollision();
    var scanned;
    first, scanned := cache.Search(courses, "a:b", "", true, true);
    second, scanned := cache.Search(courses, "a", "b:", true, true);
  }
}
