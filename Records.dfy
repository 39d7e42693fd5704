/** Course records as the service holds them: a finite map from field name to a
    dynamically typed scalar, plus the small helpers every other module shares. */
module Records {

  datatype Option<+T> = None | Some(value: T)

  datatype Result<+T, +E> = Ok(value: T) | Err(error: E)

  /** A field value: the scalars a decoded JSON object or a CSV cell can hold
      (`Null` is JSON `null`, a present key with a nil value). Numbers are kept
      as integers; floating point is not modelled. */
  datatype Value = Str(s: string) | Bool(b: bool) | Num(n: int) | Null

  /** One catalog entry (a Go `map[string]any`). */
  type Record = map<string, Value>

  /** The placeholder the CSV code writes for empty or absent cells. */
  const Unknown: string := "未知"

  /** `v, _ := r[f].(string)`: the field as a string, or "" when it is missing
      or holds a non-string value. */
  function StringField(r: Record, f: string): string {
    if f in r && r[f].Str? then r[f].s else ""
  }

  /** `strings.Contains(s, sub)`: `sub` occurs in `s` at some offset. */
  predicate Contains(s: string, sub: string) {
    exists i: nat | i <= |s| :: OccursAt(s, sub, i)
  }

  /** `sub` occurs in `s` starting at offset `i`. */
  predicate OccursAt(s: string, sub: string, i: nat) {
    i + |sub| <= |s| && s[i..i + |sub|] == sub
  }

  /** The empty string contains only the empty string; every string contains it. */
  lemma ContainsEmpty(s: string, sub: string)
    ensures Contains(s, "")
    ensures Contains("", sub) <==> sub == ""
  {
    assert OccursAt(s, "", 0);
    assert OccursAt("", "", 0);
  }

  /** Every element of `s` differs from every other one. */
  predicate Distinct<T(==)>(s: seq<T>) {
    forall i, j | 0 <= i < j < |s| :: s[i] != s[j]
  }
}
