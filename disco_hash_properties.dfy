/**
 * What the verification string built by `AppendHash` does and does not depend on.
 */
module DiscoHashProperties {
  import opened ByteOrder
  import opened Sorting
  import opened DiscoHash

  /** The input of the verification string does not depend on the order of the
      identities and features, provided no two identities share a sort key. */
  lemma CanonicalPermutationInvariant(v: InfoValue, w: InfoValue)
    requires multiset(v.identities) == multiset(w.identities)
    requires multiset(v.features) == multiset(w.features)
    requires v.forms == w.forms
    requires KeyInjective(v.identities, IdentityKey)
    ensures Canonical(v) == Canonical(w)
  {
    var a, b := SortBy(v.identities, IdentityKey), SortBy(w.identities, IdentityKey);
    InjectiveUnderPermutation(v.identities, a, IdentityKey);
    SortedPermutationsEqual(a, b, IdentityKey);
    var c, d := SortBy(v.features, FeatureKey), SortBy(w.features, FeatureKey);
    FeatureKeyInjective(c);
    SortedPermutationsEqual(c, d, FeatureKey);
  }

  /** Two identities that differ only in their name tie under the comparator, so
      both orders are sorted permutations of the input, as `AppendHash` promises,
      yet the bytes written differ: with such ties the hash depends on where the
      unstable sort happens to leave them. */
  lemma IdentityTiesAreOrderSensitive()
    ensures var x, y := Identity([99], [112], [], [97]), Identity([99], [112], [], [98]);
      && SortedBy([x, y], IdentityKey) && SortedBy([y, x], IdentityKey)
      && multiset([x, y]) == multiset([y, x])
      && Serialize([x, y], [], []) != Serialize([y, x], [], [])
  {
    var x, y := Identity([99], [112], [], [97]), Identity([99], [112], [], [98]);
    KeyLessIrreflexive(IdentityKey(x));
    assert IdentityKey(x) == IdentityKey(y);
    assert Concat([x, y], IdentityString) == IdentityString(x) + IdentityString(y) by {
      assert [x, y][..1] == [x] && [x][..0] == [];
      assert Concat([x], IdentityString) == IdentityString(x);
    }
    assert Concat([y, x], IdentityString) == IdentityString(y) + IdentityString(x) by {
      assert [y, x][..1] == [y] && [y][..0] == [];
      assert Concat([y], IdentityString) == IdentityString(y);
    }
    assert Serialize([x, y], [], [])[5] != Serialize([y, x], [], [])[5];
  }

  /** The forms are hashed in the order they come in, not sorted by FORM_TYPE:
      the same two forms in the other order give different bytes. */
  lemma FormOrderIsSignificant()
    ensures var f, g := Form([Field(FormTypeVar, [[97]])]), Form([Field(FormTypeVar, [[98]])]);
      Serialize([], [], [f, g]) != Serialize([], [], [g, f])
  {
    var f, g := Form([Field(FormTypeVar, [[97]])]), Form([Field(FormTypeVar, [[98]])]);
    assert FieldNames(f.fields) == [] && FieldNames(g.fields) == [];
    assert FormString(f) == [97] + Lt + [];
    assert FormString(g) == [98] + Lt + [];
    assert Concat([f, g], FormString) == FormString(f) + FormString(g) by {
      assert [f, g][..1] == [f] && [f][..0] == [];
      assert Concat([f], FormString) == FormString(f);
    }
    assert Concat([g, f], FormString) == FormString(g) + FormString(f) by {
      assert [g, f][..1] == [g] && [g][..0] == [];
      assert Concat([g], FormString) == FormString(g);
    }
    assert Serialize([], [], [f, g])[0] != Serialize([], [], [g, f])[0];
  }

  /** A feature containing "<" serialises like two features: the verification
      string does not tell these two `Info` values apart. */
  lemma DelimiterCollision()
    ensures Serialize([], [Feature([97, 60, 98])], []) == Serialize([], [Feature([97]), Feature([98])], [])
  {
    var two := [Feature([97]), Feature([98])];
    assert two[..1] == [Feature([97])];
    assert Concat(two, FeatureString) == [97, 60] + [98, 60];
  }

  /** The fields of a form carry different names. */
  predicate DistinctNames(fields: seq<Field>)
  {
    forall i, j :: 0 <= i < j < |fields| ==> fields[i].name != fields[j].name
  }

  lemma {:induction false} RawOfDistinct(fields: seq<Field>, i: nat)
    requires DistinctNames(fields) && i < |fields|
    ensures Raw(fields, fields[i].name) == fields[i].values
  {
    if i > 0 {
      assert fields[0].name != fields[i].name;
      assert fields[1..][i - 1] == fields[i];
      RawOfDistinct(fields[1..], i - 1);
    }
  }

  /** With distinct names, `Raw` does not depend on the order of the fields. */
  lemma RawPermutation(f: seq<Field>, g: seq<Field>, name: Bytes)
    requires multiset(f) == multiset(g)
    requires DistinctNames(f) && DistinctNames(g)
    ensures Raw(f, name) == Raw(g, name)
  {
    if HasField(f, name) {
      var i :| 0 <= i < |f| && f[i].name == name;
      assert f[i] in multiset(g);
      var j :| 0 <= j < |g| && g[j] == f[i];
      RawOfDistinct(f, i);
      RawOfDistinct(g, j);
    } else {
      forall j | 0 <= j < |g| ensures g[j].name != name {
        assert g[j] in multiset(f);
      }
      RawAbsent(f, name);
      RawAbsent(g, name);
    }
  }

  lemma {:induction false} FieldNamesAppend(a: seq<Field>, b: seq<Field>)
    ensures FieldNames(a + b) == FieldNames(a) + FieldNames(b)
  {
    if b == [] {
      assert a + b == a;
    } else {
      var b' := b[..|b| - 1];
      assert (a + b)[..|a + b| - 1] == a + b';
      assert (a + b)[|a + b| - 1] == b[|b| - 1];
      FieldNamesAppend(a, b');
    }
  }

  /** The names `ForFields` collects are the same up to order for any order of the fields. */
  lemma {:induction false} FieldNamesPermutation(f: seq<Field>, g: seq<Field>)
    requires multiset(f) == multiset(g)
    ensures multiset(FieldNames(f)) == multiset(FieldNames(g))
    decreases |f|
  {
    if f == [] {
      assert |g| == |multiset(g)| == 0;
    } else {
      var n := |f| - 1;
      assert f[n] in multiset(g);
      var j :| 0 <= j < |g| && g[j] == f[n];
      RemoveMatching(f, g, j);
      FieldNamesPermutation(f[..n], g[..j] + g[j + 1..]);
      FieldNamesLast(f);
      FieldNamesRemove(g, j);
    }
  }

  /** The names of all fields are those of all but the last, and the last's. */
  lemma FieldNamesLast(f: seq<Field>)
    requires f != []
    ensures multiset(FieldNames(f)) == multiset(FieldNames(f[..|f| - 1])) + multiset(FieldNames([f[|f| - 1]]))
  {
    var n := |f| - 1;
    var own := if f[n].name == FormTypeVar then [] else [f[n].name];
    assert FieldNames(f) == FieldNames(f[..n]) + own;
    assert FieldNames([f[n]]) == own by {
      assert [f[n]][..0] == [];
    }
  }

  /** Taking one field out takes its name out, if it collects one. */
  lemma FieldNamesRemove(g: seq<Field>, j: nat)
    requires j < |g|
    ensures multiset(FieldNames(g)) == multiset(FieldNames(g[..j] + g[j + 1..])) + multiset(FieldNames([g[j]]))
  {
    assert g == g[..j] + [g[j]] + g[j + 1..];
    FieldNamesAppend(g[..j] + [g[j]], g[j + 1..]);
    FieldNamesAppend(g[..j], [g[j]]);
    FieldNamesAppend(g[..j], g[j + 1..]);
  }

  /** Taking the last element off one sequence and a matching one off a permutation
      of it leaves permutations. */
  lemma RemoveMatching<T>(f: seq<T>, g: seq<T>, j: nat)
    requires multiset(f) == multiset(g)
    requires |f| > 0 && j < |g| && g[j] == f[|f| - 1]
    ensures multiset(f[..|f| - 1]) == multiset(g[..j] + g[j + 1..])
  {
    var n, x := |f| - 1, g[j];
    assert f == f[..n] + [x];
    assert g == g[..j] + [x] + g[j + 1..];
    assert multiset(f[..n]) == multiset(f) - multiset{x};
    assert multiset(g[..j] + g[j + 1..]) == multiset(g) - multiset{x};
  }

  lemma {:induction false} FieldsStringAgree(f: Form, g: Form, names: seq<Bytes>)
    requires forall i :: 0 <= i < |names| ==> Raw(f.fields, names[i]) == Raw(g.fields, names[i])
    ensures FieldsString(f, names) == FieldsString(g, names)
  {
    if names != [] {
      FieldsStringAgree(f, g, names[..|names| - 1]);
    }
  }

  /** The order of the fields of a form does not change its part of the
      verification string, when the fields have distinct names. */
  lemma FieldOrderIrrelevant(f: Form, g: Form)
    requires multiset(f.fields) == multiset(g.fields)
    requires DistinctNames(f.fields) && DistinctNames(g.fields)
    ensures FormString(f) == FormString(g)
  {
    RawPermutation(f.fields, g.fields, FormTypeVar);
    FieldNamesPermutation(f.fields, g.fields);
    var a, b := SortBy(FieldNames(f.fields), StringKey), SortBy(FieldNames(g.fields), StringKey);
    StringKeyInjective(a);
    SortedPermutationsEqual(a, b, StringKey);
    forall i | 0 <= i < |a| ensures Raw(f.fields, a[i]) == Raw(g.fields, a[i]) {
      RawPermutation(f.fields, g.fields, a[i]);
    }
    FieldsStringAgree(f, g, a);
  }

  /** The order of a field's values does not change the field's part of the string. */
  lemma ValueOrderIrrelevant(f: Form, g: Form, name: Bytes)
    requires multiset(Raw(f.fields, name)) == multiset(Raw(g.fields, name))
    ensures FieldString(f, name) == FieldString(g, name)
  {
    var a, b := SortBy(Raw(f.fields, name), StringKey), SortBy(Raw(g.fields, name), StringKey);
    StringKeyInjective(a);
    SortedPermutationsEqual(a, b, StringKey);
  }
}
