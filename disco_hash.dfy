/**
 * The entity capabilities verification string of package disco (disco/caps.go,
 * `Info.AppendHash` and `Info.Hash`): the generation method of section 5.1 of
 * XEP-0115, with extended information forms as in XEP-0128.
 *
 * The string hashed is built from three parts, every token ending in "<":
 *  - the identities, sorted by (category, type, xml:lang), each as C/T/L/N<;
 *  - the features, sorted, each as VAR<;
 *  - the forms, IN INPUT ORDER, each as its FORM_TYPE value, then each other
 *    field name in sorted order followed by that field's values in sorted order.
 * The digest of that string, appended to the caller's buffer, is Base64-encoded.
 */
module DiscoHash {
  import opened ByteOrder
  import opened Sorting
  import opened Results
  import Base64

  /** A service discovery identity. */
  datatype Identity = Identity(category: Bytes, typ: Bytes, lang: Bytes, name: Bytes)

  /** A supported feature, by its `var`. */
  datatype Feature = Feature(varName: Bytes)

  /** One field of a data form: its `var` and its raw values. */
  datatype Field = Field(name: Bytes, values: seq<Bytes>)

  /** An extended information form (a `form.Data`), as its fields in order. */
  datatype Form = Form(fields: seq<Field>)

  /** The `Info` struct: its two slices share their backing arrays with the
      caller, so sorting them in `AppendHash` reorders the caller's slices. */
  datatype Info = Info(identity: array<Identity>, features: array<Feature>, forms: seq<Form>)

  /** The contents of an `Info` at one moment, as values. */
  datatype InfoValue = InfoValue(identities: seq<Identity>, features: seq<Feature>, forms: seq<Form>)

  /** A `hash.Hash`: the bytes written so far, and the digest it computes of them. */
  class Hasher {
    const digest: Bytes -> Bytes
    var written: Bytes

    constructor (digest: Bytes -> Bytes)
      ensures this.digest == digest && written == []
    {
      this.digest := digest;
      written := [];
    }

    /** `h.Write(b)` (and `io.WriteString`, `fmt.Fprintf` into `h`). */
    method Write(b: Bytes)
      modifies this
      ensures written == old(written) + b
    {
      written := written + b;
    }

    /** `h.Sum(dst)`: appends the digest to `dst` and leaves the state alone. */
    function Sum(dst: Bytes): Bytes
      reads this
    {
      dst + digest(written)
    }
  }

  const Lt: Bytes := [60]     // "<"
  const Slash: Bytes := [47]  // "/"
  const FormTypeVar: Bytes := Ascii("FORM_TYPE")

  /** The comparator of disco/caps.go:106-118: category, then type, then lang; the name is ignored. */
  function IdentityKey(id: Identity): Key
  {
    [id.category, id.typ, id.lang]
  }

  /** The comparator of disco/caps.go:125-127. */
  function FeatureKey(f: Feature): Key
  {
    [f.varName]
  }

  /** `sort.Strings`. */
  function StringKey(s: Bytes): Key
  {
    [s]
  }

  lemma FeatureKeyInjective(s: seq<Feature>)
    ensures KeyInjective(s, FeatureKey)
  {
    forall x, y | x in s && y in s && FeatureKey(x) == FeatureKey(y) ensures x == y {
      assert FeatureKey(x)[0] == FeatureKey(y)[0];
    }
  }

  lemma StringKeyInjective(s: seq<Bytes>)
    ensures KeyInjective(s, StringKey)
  {
    forall x, y | x in s && y in s && StringKey(x) == StringKey(y) ensures x == y {
      assert StringKey(x)[0] == StringKey(y)[0];
    }
  }

  /** The tokens of a sequence, concatenated in order. */
  function Concat<T>(s: seq<T>, token: T -> Bytes): Bytes
  {
    if s == [] then [] else Concat(s[..|s| - 1], token) + token(s[|s| - 1])
  }

  /** `fmt.Fprintf(h, "%s/%s/%s/%s<", ...)` of one identity. */
  function IdentityString(id: Identity): Bytes
  {
    id.category + Slash + id.typ + Slash + id.lang + Slash + id.name + Lt
  }

  function FeatureString(f: Feature): Bytes
  {
    f.varName + Lt
  }

  function Terminated(s: Bytes): Bytes
  {
    s + Lt
  }

  /** True if some field is called `name`. */
  predicate HasField(fields: seq<Field>, name: Bytes)
  {
    exists i :: 0 <= i < |fields| && fields[i].name == name
  }

  /** `infoForm.Raw(name)`: the values of the first field called `name`, none if there is none. */
  function Raw(fields: seq<Field>, name: Bytes): seq<Bytes>
  {
    if fields == [] then []
    else if fields[0].name == name then fields[0].values
    else Raw(fields[1..], name)
  }

  /** `infoForm.GetString(name)`: the first value of the first field called `name`, "" if none. */
  function GetString(fields: seq<Field>, name: Bytes): Bytes
  {
    var values := Raw(fields, name);
    if values == [] then [] else values[0]
  }

  /** The FORM_TYPE a form is hashed under ("" when the form has none). */
  function FormType(form: Form): Bytes
  {
    GetString(form.fields, FormTypeVar)
  }

  /** The names `ForFields` collects: every field name except FORM_TYPE, in form order. */
  function FieldNames(fields: seq<Field>): seq<Bytes>
  {
    if fields == [] then []
    else
      var last := fields[|fields| - 1];
      FieldNames(fields[..|fields| - 1]) + (if last.name == FormTypeVar then [] else [last.name])
  }

  /** One field: its name, then its values in sorted order. */
  function FieldString(form: Form, name: Bytes): Bytes
  {
    name + Lt + Concat(SortBy(Raw(form.fields, name), StringKey), Terminated)
  }

  /** The fields called `names`, one after another. */
  function FieldsString(form: Form, names: seq<Bytes>): Bytes
  {
    Concat(names, name => FieldString(form, name))
  }

  /** One form: its FORM_TYPE, then its other fields in sorted order of name. */
  function FormString(form: Form): Bytes
  {
    FormType(form) + Lt + FieldsString(form, SortBy(FieldNames(form.fields), StringKey))
  }

  /** The bytes `AppendHash` writes, given the order its sorts left the identities and features in. */
  function Serialize(identities: seq<Identity>, features: seq<Feature>, forms: seq<Form>): Bytes
  {
    Concat(identities, IdentityString) + Concat(features, FeatureString) + Concat(forms, FormString)
  }

  /** The verification string's input for an `Info` whose identities have distinct sort keys. */
  function Canonical(info: InfoValue): Bytes
  {
    Serialize(SortBy(info.identities, IdentityKey), SortBy(info.features, FeatureKey), info.forms)
  }

  lemma {:induction false} RawAbsent(fields: seq<Field>, name: Bytes)
    requires !HasField(fields, name)
    ensures Raw(fields, name) == []
  {
    if fields != [] {
      RawAbsent(fields[1..], name);
    }
  }

  /** `infoForm.ForFields` with the callback of disco/caps.go:139-145: keeps the
      FORM_TYPE value and collects every other field name in form order. */
  method CollectFields(form: Form) returns (formType: Bytes, fields: seq<Bytes>)
    ensures formType == FormType(form)
    ensures fields == FieldNames(form.fields)
  {
    formType, fields := [], [];
    var j := 0;
    while j < |form.fields|
      invariant 0 <= j <= |form.fields|
      invariant fields == FieldNames(form.fields[..j])
      invariant formType == if HasField(form.fields[..j], FormTypeVar) then FormType(form) else []
    {
      var f := form.fields[j];
      assert form.fields[..j + 1][..j] == form.fields[..j];
      if f.name == FormTypeVar {
        formType := GetString(form.fields, FormTypeVar);
        assert form.fields[..j + 1][j].name == FormTypeVar;
      } else {
        fields := fields + [f.name];
        if HasField(form.fields[..j + 1], FormTypeVar) {
          var i :| 0 <= i < j + 1 && form.fields[..j + 1][i].name == FormTypeVar;
          assert form.fields[..j][i].name == FormTypeVar;
        }
      }
      j := j + 1;
    }
    assert form.fields[..j] == form.fields;
    if !HasField(form.fields, FormTypeVar) {
      RawAbsent(form.fields, FormTypeVar);
    }
  }

  /** A sorted copy of `s`, made the way disco/caps.go sorts its string slices. */
  method SortedCopy(s: seq<Bytes>) returns (a: array<Bytes>)
    ensures fresh(a)
    ensures a[..] == SortBy(s, StringKey)
  {
    a := new Bytes[|s|](i requires 0 <= i < |s| => s[i]);
    assert a[..] == s;
    SortSlice(a, StringKey);
    StringKeyInjective(a[..]);
    SortedPermutationsEqual(a[..], SortBy(s, StringKey), StringKey);
  }

  /** Writes each value followed by "<" (disco/caps.go:158-163). */
  method WriteValues(values: array<Bytes>, h: Hasher)
    modifies h
    ensures h.written == old(h.written) + Concat(values[..], Terminated)
  {
    var m := 0;
    while m < values.Length
      invariant 0 <= m <= values.Length
      invariant h.written == old(h.written) + Concat(values[..m], Terminated)
    {
      assert values[..m + 1][..m] == values[..m];
      h.Write(values[m]);
      h.Write(Lt);
      m := m + 1;
    }
    assert values[..m] == values[..];
  }

  /** One field of a form (disco/caps.go:152-163): its name, then its values sorted. */
  method WriteField(form: Form, name: Bytes, h: Hasher)
    modifies h
    ensures h.written == old(h.written) + FieldString(form, name)
  {
    h.Write(name);
    h.Write(Lt);
    var vals := SortedCopy(Raw(form.fields, name));
    WriteValues(vals, h);
    FieldStringOf(form, name, vals[..], old(h.written), h.written);
  }

  lemma FieldStringOf(form: Form, name: Bytes, vals: seq<Bytes>, before: Bytes, after: Bytes)
    requires vals == SortBy(Raw(form.fields, name), StringKey)
    requires after == before + name + Lt + Concat(vals, Terminated)
    ensures after == before + FieldString(form, name)
  {
  }

  /** The body of the loop over `i.Form` (disco/caps.go:136-165) for one form. */
  method WriteForm(form: Form, h: Hasher)
    requires |form.fields| >= 1
    modifies h
    ensures h.written == old(h.written) + FormString(form)
  {
    // make([]string, 0, infoForm.Len()-1) panics unless this is non-negative.
    var capacity: nat := |form.fields| - 1;
    var formType, fields := CollectFields(form);
    var names := SortedCopy(fields);
    h.Write(formType);
    h.Write(Lt);
    ghost var start := h.written;
    var k := 0;
    while k < names.Length
      invariant 0 <= k <= names.Length
      invariant names[..] == SortBy(fields, StringKey)
      invariant h.written == start + FieldsString(form, names[..k])
    {
      ghost var w := h.written;
      WriteField(form, names[k], h);
      FieldsExtend(form, names[..], k, start, w, h.written);
      k := k + 1;
    }
    assert names[..k] == names[..];
    FormStringOf(form, formType, names[..], old(h.written), start, h.written);
  }

  /** One more field name extends the fields part by that field. */
  lemma FieldsExtend(form: Form, names: seq<Bytes>, k: nat, base: Bytes, w: Bytes, after: Bytes)
    requires k < |names|
    requires w == base + FieldsString(form, names[..k])
    requires after == w + FieldString(form, names[k])
    ensures after == base + FieldsString(form, names[..k + 1])
  {
    assert names[..k + 1][..k] == names[..k];
  }

  lemma FormStringOf(form: Form, formType: Bytes, names: seq<Bytes>, before: Bytes, start: Bytes, after: Bytes)
    requires formType == FormType(form)
    requires names == SortBy(FieldNames(form.fields), StringKey)
    requires start == before + formType + Lt
    requires after == start + FieldsString(form, names)
    ensures after == before + FormString(form)
  {
  }

  /** `i.AppendHash(dst, h)`: sorts the caller's identity and feature slices in
      place, writes the verification string's input to `h`, and returns the
      Base64 encoding of `dst` followed by the digest. */
  method AppendHash(info: Info, dst: Bytes, h: Hasher) returns (out: Bytes)
    requires forall form :: form in info.forms ==> |form.fields| >= 1
    modifies info.identity, info.features, h
    ensures SortedBy(info.identity[..], IdentityKey)
    ensures multiset(info.identity[..]) == multiset(old(info.identity[..]))
    ensures SortedBy(info.features[..], FeatureKey)
    ensures multiset(info.features[..]) == multiset(old(info.features[..]))
    ensures h.written == old(h.written) + Serialize(info.identity[..], info.features[..], info.forms)
    ensures out == Base64.Encode(dst + h.digest(h.written))
    ensures |out| == Base64.EncodedLen(|dst| + |h.digest(h.written)|)
    ensures KeyInjective(old(info.identity[..]), IdentityKey) ==>
      h.written == old(h.written) + Canonical(InfoValue(old(info.identity[..]), old(info.features[..]), info.forms))
  {
    WriteSorted(info, h);
    var sum := h.Sum(dst);
    out := Base64.Encode(sum);
  }

  /** The part of `AppendHash` before the digest (disco/caps.go:117-165): sorts
      both slices in place and writes identities, features and forms. */
  method WriteSorted(info: Info, h: Hasher)
    requires forall form :: form in info.forms ==> |form.fields| >= 1
    modifies info.identity, info.features, h
    ensures SortedBy(info.identity[..], IdentityKey)
    ensures multiset(info.identity[..]) == multiset(old(info.identity[..]))
    ensures SortedBy(info.features[..], FeatureKey)
    ensures multiset(info.features[..]) == multiset(old(info.features[..]))
    ensures h.written == old(h.written) + Serialize(info.identity[..], info.features[..], info.forms)
    ensures KeyInjective(old(info.identity[..]), IdentityKey) ==>
      h.written == old(h.written) + Canonical(InfoValue(old(info.identity[..]), old(info.features[..]), info.forms))
  {
    ghost var original := InfoValue(info.identity[..], info.features[..], info.forms);
    SortSlice(info.identity, IdentityKey);
    ghost var identities := info.identity[..];
    WriteIdentities(info.identity, h);
    ghost var afterIdentities := h.written;
    SortSlice(info.features, FeatureKey);
    ghost var features := info.features[..];
    WriteFeatures(info.features, h);
    ghost var afterFeatures := h.written;
    WriteForms(info.forms, h);
    assert info.identity[..] == identities && info.features[..] == features;
    SerializeOf(identities, features, info.forms, old(h.written), afterIdentities, afterFeatures, h.written);
    if KeyInjective(original.identities, IdentityKey) {
      SortedIsCanonical(original, identities, features);
    }
  }

  /** The identity loop of disco/caps.go:120-122. */
  method WriteIdentities(identities: array<Identity>, h: Hasher)
    modifies h
    ensures h.written == old(h.written) + Concat(identities[..], IdentityString)
  {
    var i := 0;
    while i < identities.Length
      invariant 0 <= i <= identities.Length
      invariant h.written == old(h.written) + Concat(identities[..i], IdentityString)
    {
      ghost var w := h.written;
      h.Write(IdentityString(identities[i]));
      ConcatExtend(identities[..], i, IdentityString, old(h.written), w, h.written);
      i := i + 1;
    }
    assert identities[..i] == identities[..];
  }

  /** The feature loop of disco/caps.go:129-133. */
  method WriteFeatures(features: array<Feature>, h: Hasher)
    modifies h
    ensures h.written == old(h.written) + Concat(features[..], FeatureString)
  {
    var i := 0;
    while i < features.Length
      invariant 0 <= i <= features.Length
      invariant h.written == old(h.written) + Concat(features[..i], FeatureString)
    {
      ghost var w := h.written;
      h.Write(features[i].varName);
      h.Write(Lt);
      assert h.written == w + FeatureString(features[i]);
      ConcatExtend(features[..], i, FeatureString, old(h.written), w, h.written);
      i := i + 1;
    }
    assert features[..i] == features[..];
  }

  /** The form loop of disco/caps.go:136-165. */
  method WriteForms(forms: seq<Form>, h: Hasher)
    requires forall form :: form in forms ==> |form.fields| >= 1
    modifies h
    ensures h.written == old(h.written) + Concat(forms, FormString)
  {
    var k := 0;
    while k < |forms|
      invariant 0 <= k <= |forms|
      invariant h.written == old(h.written) + Concat(forms[..k], FormString)
    {
      ghost var w := h.written;
      WriteForm(forms[k], h);
      ConcatExtend(forms, k, FormString, old(h.written), w, h.written);
      k := k + 1;
    }
    assert forms[..k] == forms;
  }

  /** One more element extends the concatenation by its token. */
  lemma ConcatExtend<T>(s: seq<T>, k: nat, token: T -> Bytes, base: Bytes, w: Bytes, after: Bytes)
    requires k < |s|
    requires w == base + Concat(s[..k], token)
    requires after == w + token(s[k])
    ensures after == base + Concat(s[..k + 1], token)
  {
    assert s[..k + 1][..k] == s[..k];
  }

  lemma SerializeOf(identities: seq<Identity>, features: seq<Feature>, forms: seq<Form>,
                    before: Bytes, afterIdentities: Bytes, afterFeatures: Bytes, after: Bytes)
    requires afterIdentities == before + Concat(identities, IdentityString)
    requires afterFeatures == afterIdentities + Concat(features, FeatureString)
    requires after == afterFeatures + Concat(forms, FormString)
    ensures after == before + Serialize(identities, features, forms)
  {
    var a, b, c := Concat(identities, IdentityString), Concat(features, FeatureString), Concat(forms, FormString);
    AppendAssociative(before, a, b);
    AppendAssociative(before, a + b, c);
  }

  lemma AppendAssociative(x: Bytes, y: Bytes, z: Bytes)
    ensures x + y + z == x + (y + z)
  {
  }

  /** `i.Hash(h)`: `AppendHash` with an empty buffer. */
  method Hash(info: Info, h: Hasher) returns (s: Bytes)
    requires forall form :: form in info.forms ==> |form.fields| >= 1
    modifies info.identity, info.features, h
    ensures SortedBy(info.identity[..], IdentityKey)
    ensures multiset(info.identity[..]) == multiset(old(info.identity[..]))
    ensures SortedBy(info.features[..], FeatureKey)
    ensures multiset(info.features[..]) == multiset(old(info.features[..]))
    ensures h.written == old(h.written) + Serialize(info.identity[..], info.features[..], info.forms)
    ensures s == Base64.Encode(h.digest(h.written))
    ensures old(h.written) == [] && KeyInjective(old(info.identity[..]), IdentityKey) ==>
      s == Base64.Encode(h.digest(Canonical(InfoValue(old(info.identity[..]), old(info.features[..]), info.forms))))
  {
    ghost var before := InfoValue(info.identity[..], info.features[..], info.forms);
    ghost var w0 := h.written;
    s := AppendHash(info, [], h);
    assert [] + h.digest(h.written) == h.digest(h.written);
    if w0 == [] && KeyInjective(before.identities, IdentityKey) {
      ghost var c := Canonical(before);
      assert h.written == w0 + c;
      assert h.written == c;
    }
  }

  /** What the doc comment of `AppendHash` (disco/caps.go:101-102) describes: the
      verification string appended to `dst`, which `dst` still prefixes and whose
      remainder decodes to the digest. With an empty `dst`, as `Hash` passes, it
      is what `AppendHash` returns. */
  function AppendedHash(dst: Bytes, digest: Bytes): (r: Bytes)
    ensures |dst| <= |r| && r[..|dst|] == dst
    ensures Base64.Decode(r[|dst|..]) == Some(digest)
    ensures dst == [] ==> r == Base64.Encode(dst + digest)
  {
    Base64.DecodeEncode(digest);
    assert (dst + Base64.Encode(digest))[|dst|..] == Base64.Encode(digest);
    assert [] + digest == digest;
    dst + Base64.Encode(digest)
  }

  /** A length that is not a whole number of groups is not made one by adding groups. */
  lemma NotWholeGroups(d: nat, a: nat, b: nat)
    requires d % 4 != 0
    ensures a * 4 != d + b * 4
  {
  }

  /** `AppendHash` as written encodes `dst` together with the digest: whenever
      `dst` is not a whole number of groups, what it returns is not `dst`
      followed by the verification string. */
  lemma AppendHashEncodesDst(dst: Bytes, digest: Bytes)
    requires |dst| % 4 != 0
    ensures Base64.Encode(dst + digest) != AppendedHash(dst, digest)
  {
    var whole, tail := (|dst| + |digest| + 2) / 3, (|digest| + 2) / 3;
    assert |Base64.Encode(dst + digest)| == whole * 4;
    assert |AppendedHash(dst, digest)| == |dst| + tail * 4;
    NotWholeGroups(|dst|, whole, tail);
  }

  /** Whatever order the unstable sorts leave, the bytes written are the canonical
      ones when no two identities share a sort key without being equal. */
  lemma SortedIsCanonical(info: InfoValue, identities: seq<Identity>, features: seq<Feature>)
    requires SortedBy(identities, IdentityKey) && multiset(identities) == multiset(info.identities)
    requires KeyInjective(info.identities, IdentityKey)
    requires SortedBy(features, FeatureKey) && multiset(features) == multiset(info.features)
    ensures Serialize(identities, features, info.forms) == Canonical(info)
  {
    InjectiveUnderPermutation(info.identities, identities, IdentityKey);
    SortedPermutationsEqual(identities, SortBy(info.identities, IdentityKey), IdentityKey);
    FeatureKeyInjective(features);
    SortedPermutationsEqual(features, SortBy(info.features, FeatureKey), FeatureKey);
  }
}
