/** The inja::json values the theme loaders build: strings and objects. */
module Json {
  datatype Json = Str(s: string) | Obj(fields: map<string, Json>)

  /** An object whose members are the strings of `m`. */
  function StrFields(m: map<string, string>): (r: map<string, Json>)
    ensures r.Keys == m.Keys
    ensures forall k :: k in m ==> r[k] == Str(m[k])
  {
    map k | k in m :: Str(m[k])
  }

  /** Storing one more string member in an object built by StrFields. */
  lemma StrFieldsStore(m: map<string, string>, k: string, v: string)
    ensures StrFields(m[k := v]) == StrFields(m)[k := Str(v)]
  {
    var lhs := StrFields(m[k := v]);
    var rhs := StrFields(m)[k := Str(v)];
    assert lhs.Keys == rhs.Keys;
    forall x | x in lhs ensures lhs[x] == rhs[x] {
    }
  }

  /** The same, next to members of `base` that the strings override. */
  lemma StrFieldsUpdate(base: map<string, Json>, m: map<string, string>, k: string, v: string)
    ensures base + StrFields(m[k := v]) == (base + StrFields(m))[k := Str(v)]
  {
    var lhs := base + StrFields(m[k := v]);
    var rhs := (base + StrFields(m))[k := Str(v)];
    assert lhs.Keys == rhs.Keys;
    forall x | x in lhs ensures lhs[x] == rhs[x] {
    }
  }
}
