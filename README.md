# Entity capabilities and archive queries, modelled in Dafny

This project models two parts of an XMPP library written in Go.

**Entity capabilities (`disco/caps.go`).** `Info.AppendHash` and `Info.Hash`
build the verification string of section 5.1 of XEP-0115, with extended forms
as in XEP-0128. They work in four steps:

1. Sort the caller's identity slice by (category, type, xml:lang), using Go's
   byte-wise `<` on strings. This is the "i;octet" collation of section 9.3 of
   RFC 4790.
2. Sort the feature slice.
3. Write every identity as `C/T/L/N<` and every feature as `VAR<` into a
   `hash.Hash`. Then write each form in input order: its FORM_TYPE, then its
   other fields by sorted name, each with its values sorted.
4. Base64-encode (section 4 of RFC 4648) the caller's buffer followed by the
   digest.

`CapsHandler.HandlePresence` takes the first `<c/>` element of a presence and
forms the key `node + "#" + ver`. On a miss it asks the sender for its
service discovery information. It stores the answer only when the request
succeeds.

**Message archive queries (`history/query.go`).** `Query.TokenReader` turns a
query into a `<query/>` element of the namespace `urn:xmpp:mam:2`, the query
of XEP-0313. The element holds:

- a submitted data form (XEP-0004) whose filter fields are set only when the
  query's filter is not empty;
- one result set management paging request (XEP-0059), which asks for the
  previous page when `Last` is set and the next page otherwise;
- an optional `<flip-page/>`.

`WriteXML` and `MarshalXML` copy that element's tokens to a token writer.

The files:

- `results.dfy`: `Option`, `Result` and a Go `error` value.
- `byte_order.dfy`: Go strings as bytes, and Go's `<` on them. Also the
  component-wise order on the identity sort key.
- `sorting.dfy`: the contract of `sort.Slice` as a method on an array. It also
  has a reference insertion sort, and the proof that under an injective key the
  sorted permutation is unique.
- `base64.dfy`: `base64.StdEncoding`, with its decoder as the inverse the
  encoder is proved against.
- `disco_hash.dfy`: the serialisation as functions, and `AppendHash`/`Hash` as
  methods over arrays and a hash object.
- `disco_hash_properties.dfy`: what the serialisation does and does not depend
  on.
- `disco_caps.dfy`: the caps element scan, the cache key, and the cache as a
  class. A function, `Handle`, specifies one call.
- `history.dfy`: the query element. It holds the data form object updated in
  place, the token stream and its parser, and the token writer with `Copy`,
  `WriteXML` and `MarshalXML`.

Where the code differs from what the protocol or a reader might expect, the
model follows the code:

- Forms are hashed in input order, not sorted by FORM_TYPE.
- Identities that tie on (category, type, lang) are written in whatever order
  the unstable sort leaves them.
- A presence without a caps element is not ignored: the key `"#"` is looked up
  and fetched.
- A caps element that fails to decode makes the handler return the decoding
  error.
- The lock is taken at disco/caps.go:64, after the payload scan, and held from
  the cache lookup through the discovery request to the store. The code does
  not have one caller fetch a key while other callers for the same key wait
  for that result.
- `AppendHash` writes into a hash that may already hold bytes.
- `AppendHash` encodes the caller's buffer along with the digest
  (disco/caps.go:167-170). Its doc comment (disco/caps.go:101-102) says it
  appends the verification string to the buffer. See "## Findings".

## Model

| member | source | states |
|---|---|---|
| ByteOrder.LessIrreflexive | disco/caps.go:109 | Go's `<` on strings never holds between a string and itself |
| ByteOrder.LessTransitive | disco/caps.go:109 | Go's `<` on strings is transitive |
| ByteOrder.LessTotal | disco/caps.go:109 | two strings are equal or one of them is below the other (byte-wise, a prefix first) |
| ByteOrder.KeyLessIrreflexive | disco/caps.go:106-118 | the identity comparator never puts an identity before itself |
| ByteOrder.KeyLessTransitive | disco/caps.go:106-118 | the comparator (category, then type, then lang) is transitive |
| ByteOrder.KeyLessTotal | disco/caps.go:106-118 | two keys are equal or one of them sorts first |
| ByteOrder.KeyLessAsymmetric | disco/caps.go:106-118 | no two keys each sort before the other |
| ByteOrder.KeyNotLessTransitive | disco/caps.go:106-118 | "does not sort after" is transitive, so ties form a total preorder |
| Sorting.InjectiveUnderPermutation | disco/caps.go:106-118 | reordering a sequence keeps its sort keys distinct |
| Sorting.SortBy | disco/caps.go:106-118 | the reference order is sorted by the key and is a permutation of its input |
| Sorting.SortedPermutationsEqual | disco/caps.go:106-118 | two sorted permutations of one sequence are equal when no two elements share a key, so the unstable sort's result is then unique |
| Sorting.SortSlice | disco/caps.go:106-118 | `sort.Slice` leaves the caller's array sorted by the key and a permutation of what it held |
| Base64.Encode | disco/caps.go:168-169 | the output is `EncodedLen(n)` bytes long: four characters per started group of three bytes |
| Base64.DecodeEncode | disco/caps.go:169 | decoding the output gives back the input, so the encoding loses nothing |
| Base64.EncodeAlphabet | disco/caps.go:169 | every output character is a symbol of the alphabet of section 4 of RFC 4648 or the padding `=` |
| DiscoHash.Hasher.Write | disco/caps.go:130-132 | a write appends its bytes to those the hash has seen |
| DiscoHash.FeatureKeyInjective | disco/caps.go:125-127 | two features with the same sort key are the same feature, so the sorted feature order is unique |
| DiscoHash.StringKeyInjective | disco/caps.go:146 | `sort.Strings` has a unique result |
| DiscoHash.RawAbsent | disco/caps.go:156 | a name no field has yields no values |
| DiscoHash.CollectFields | disco/caps.go:137-145 | the FORM_TYPE value goes to `formType` (empty when the form has none); every other field name is collected, in form order |
| DiscoHash.SortedCopy | disco/caps.go:157 | a new array holding the names or values in sorted order |
| DiscoHash.WriteValues | disco/caps.go:158-163 | the hash receives each value followed by `<`, in array order |
| DiscoHash.WriteField | disco/caps.go:151-163 | the hash receives the field name, `<`, then the field's values in sorted order, each followed by `<` |
| DiscoHash.WriteForm | disco/caps.go:136-165 | the hash receives the form's FORM_TYPE and `<`, then its other fields in sorted order of name |
| DiscoHash.WriteIdentities | disco/caps.go:119-122 | the hash receives `C/T/L/N<` for each identity, in the array's order |
| DiscoHash.WriteFeatures | disco/caps.go:128-133 | the hash receives `VAR<` for each feature, in the array's order |
| DiscoHash.WriteForms | disco/caps.go:136-165 | the hash receives every form's part in input order |
| DiscoHash.WriteSorted | disco/caps.go:106-165 | both arrays end up sorted permutations of what they held; the hash receives identities, features and forms in that order; with distinct identity keys, what it receives is the canonical string of the original contents |
| DiscoHash.AppendHash | disco/caps.go:103-171 | the caller's identity and feature arrays end up sorted permutations of what they held; the hash receives the serialisation of that order after what it already held; the result is the Base64 of `dst` followed by the digest, of length `EncodedLen`; with distinct identity keys, what is written is the canonical string whatever the input order |
| DiscoHash.Hash | disco/caps.go:97-99 | the same, with an empty buffer: the Base64 of the digest; for a fresh hash and distinct identity keys, the digest of the canonical string |
| DiscoHash.AppendedHash | disco/caps.go:101-102 | the documented result: `dst` still prefixes it and the rest decodes to the digest; with an empty `dst` it is what `AppendHash` returns |
| DiscoHash.AppendHashEncodesDst | disco/caps.go:167-170 | for every `dst` whose length is not a multiple of four and every digest, the result is not `dst` followed by the verification string |
| DiscoHash.SortedIsCanonical | disco/caps.go:106-133 | any sorted permutations the sorts may leave serialise to the canonical string when identity keys are distinct |
| DiscoHashProperties.CanonicalPermutationInvariant | disco/caps.go:106-133 | two `Info` values with the same identities and features up to order, the same forms and distinct identity keys have the same canonical string |
| DiscoHashProperties.IdentityTiesAreOrderSensitive | disco/caps.go:106-118 | two identities that differ only by name are sorted in both orders, yet the bytes written differ |
| DiscoHashProperties.FormOrderIsSignificant | disco/caps.go:136 | the same two forms in the other order give different bytes |
| DiscoHashProperties.DelimiterCollision | disco/caps.go:128-133 | the feature `a<b` serialises like the two features `a` and `b` |
| DiscoHashProperties.RawOfDistinct | disco/caps.go:156 | with distinct field names, `Raw` of a field's name is that field's values |
| DiscoHashProperties.RawPermutation | disco/caps.go:156 | with distinct names, `Raw` does not depend on the order of the fields |
| DiscoHashProperties.FieldNamesPermutation | disco/caps.go:139-146 | reordering the fields reorders the collected names, and does nothing else to them |
| DiscoHashProperties.FieldOrderIrrelevant | disco/caps.go:136-165 | with distinct names, the order of a form's fields does not change its part of the string |
| DiscoHashProperties.ValueOrderIrrelevant | disco/caps.go:156-163 | the order of a field's values does not change its part of the string |
| DiscoCaps.FirstCaps | disco/caps.go:50-60 | the index found is that of the first child in the caps namespace named `c`; when there is none, no child is a caps element |
| DiscoCaps.ScanCaps | disco/caps.go:48-63 | the first caps element's decoded value or decoding error; without one, the iterator's error, or the zero `Caps` (key `"#"`) |
| DiscoCaps.Handle | disco/caps.go:47-82 | a scan error is returned with no lookup or request; a request is sent exactly on a miss, for the key `node + "#" + ver`; a hit returns nil and changes nothing; a failed request is returned and stores nothing; a successful one stores its answer under the key, or panics when the map is nil; existing entries are never changed or removed |
| DiscoCaps.CapsHandler.constructor | disco/caps.go:27-29 | the zero value: an empty cache whose map is nil |
| DiscoCaps.CapsHandler.WithCache | disco/caps.go:29 | a handler whose map has been made |
| DiscoCaps.CapsHandler.HandlePresence | disco/caps.go:47-82 | the token loop, lookup, request and store produce exactly the outcome, new cache and request that `Handle` gives; a nil map stays empty |
| DiscoCaps.CacheKeyInjective | disco/caps.go:66 | when neither ver holds `#`, equal keys mean equal node and ver |
| DiscoCaps.EncodeIsHashFree | disco/caps.go:167-170 | a verification string never holds `#` |
| DiscoCaps.VerificationKeysInjective | disco/caps.go:66 | two caps whose vers are verification strings share a key only when their node and ver are equal |
| DiscoCaps.CacheKeyCollisions | disco/caps.go:66 | for every caps, changing the hash algorithm leaves the key unchanged; with `#` in the ver, two different caps share a key (an exhibit) |
| DiscoCaps.NoCapsElementQueriesHash | disco/caps.go:49-66 | a presence with no caps element still sends a request, for the key `"#"` |
| DiscoCaps.SecondCallHits | disco/caps.go:66-80 | after a call on a made map that returns nil, the same presence again is a hit: nil, no request, cache unchanged |
| DiscoCaps.RetryAfterFailure | disco/caps.go:75-78 | after a failed request the same presence sends the request again |
| DiscoCaps.ZeroHandlerPanics | disco/caps.go:80 | the zero-value handler panics on the first successful request |
| DiscoCaps.MadeHandlerCaches | disco/caps.go:80 | on a made map, a presence whose caps scan succeeds and whose request (if any) succeeds returns nil and leaves its key in the cache |
| History.SetFieldValue | history/query.go:64 | setting a field that is there gives it the value and leaves every other field's value alone |
| History.DeclaredNamesDistinct | history/query.go:53-61 | the seven declared fields have different names |
| History.SetIfValues | history/query.go:62-65 | a guarded set keeps every name in place, gives the field its value when the guard holds, and changes nothing else |
| History.DataForm.constructor | history/query.go:53-61 | `form.New` holds the given fields |
| History.DataForm.Set | history/query.go:64 | `Set` updates the first field of that name in place, and reports whether there is one |
| History.NewFilterForm | history/query.go:53-85 | the new form holds the declared fields after the six guarded sets |
| History.TokenReader | history/query.go:52-113 | the element built by appending to `inner` is the query element of `q` |
| History.DeclaredValue | history/query.go:53-61 | before any set only FORM_TYPE has a value, the namespace |
| History.StageShape | history/query.go:62-85 | the guarded sets keep every declared field's name and place |
| History.StageStep | history/query.go:62-85 | each guarded set changes the value of its own field only, and only when its filter is not empty |
| History.StageValue | history/query.go:62-85 | after the first k guarded sets each field holds its filter exactly when it is among the k and its filter is not empty, and its declared value otherwise |
| History.FilterFieldValues | history/query.go:53-85 | FORM_TYPE holds the namespace; `with` is set exactly when `With` is not the zero JID; `start` and `end` exactly when the time is not zero, holding it; `after-id`, `before-id` and `ids` exactly when not empty, holding them |
| History.QueryElementShape | history/query.go:88-112 | one `query` element in the namespace with `queryid` equal to `ID`; the form first; `RequestPrev{Max: Limit}` exactly when `Last`, otherwise `RequestNext`; two children without `Reverse`, and a third, flip-page, with it |
| History.InterpretQueryElement | history/query.go:52-113 | an archive reading the element by field name recovers the query, times cut to whole seconds |
| History.QueryElementInjective | history/query.go:52-113 | two queries that give the same element agree up to whole seconds |
| History.ParseTokens | history/query.go:106-112 | reading a node's tokens back gives the node and leaves the tokens that follow |
| History.ParseTokensOf | history/query.go:107 | reading the tokens of several nodes back, up to an end token, gives the nodes |
| History.TokensInjective | history/query.go:106-112 | different elements give different token streams |
| History.QueryTokens | history/query.go:88-112 | the stream is the query start, the form, the paging request, a flip-page start and end when `Reverse`, and the query end: 4 or 6 tokens |
| History.TokenWriter.EncodeToken | history/query.go:117 | the token is appended when the writer accepts it; otherwise an error comes back and nothing is written |
| History.Copy | history/query.go:117 | the first `n` tokens are written in order; the error is nil exactly when all were written, and is the writer's refusal otherwise |
| History.WriteXML | history/query.go:116-118 | the writer receives a prefix of the `TokenReader` tokens, all of them exactly when no error is returned, and `n` counts them, each embedded reader as one token |
| History.MarshalXML | history/query.go:121-124 | without an error the encoder received exactly the `TokenReader` tokens; with one, a proper prefix of them |

## Left out

- DiscoHash.AppendHash: requires every form to have at least one field. With none, `make` gets the negative capacity `Len()-1` (disco/caps.go:138) and panics. The panic is not modelled.
- DiscoHash.Hasher: the digest is a function the hash object is built with, left unspecified. No particular algorithm is modelled.
- DiscoHash.SortedCopy: always sorts a new array. disco/caps.go:156-157 sorts whatever `Raw` returns; if that is the field's own slice, the caller's form values are sorted in place too. That aliasing is not modelled, because the `form` package is not part of this model.
- DiscoHash.Raw: `form.Data`'s `Raw`, `GetString` and `ForFields` are not part of this model. They are modelled as reading the first field with the name, and the fields in form order.
- DiscoCaps.ScanCaps: the XML iteration and the decoding of the caps element are inputs. Each child carries the result its decoding would have, and the payload carries the error the iterator stops on.
- DiscoCaps.Caps: the `hash` attribute is kept as a number. How `encoding/xml` reads the algorithm name into a `crypto.Hash` (an unsigned integer) is not modelled. If it cannot read a name such as `sha-1`, every such caps element fails to decode; that code is not part of this model.
- DiscoCaps.Handle: the discovery request (`GetInfo`, a network round trip) is an input outcome. `BaseContext` only supplies the request's context and is left out.
- DiscoCaps.CapsHandler.HandlePresence: the mutex is left out. The lock is taken at disco/caps.go:64 and held from the cache lookup through the discovery request to the store; the scan before it reads only the call's own payload, so each call is one atomic step.
- DiscoCaps.CapsHandler.HandlePresence: the source's TODO, checking the answer's hash against `ver`, is not modelled because the source does not do it.
- History.Filter: a time is kept as the whole seconds of its UTC instant. Its RFC 3339 text (`time.Format`) is not produced.
- History.FilterFieldValues: `jid.JID.Equal(jid.JID{})` is modelled as all three parts being empty.
- History.Tokens: the data form and the paging requests come from the `form` and `paging` packages, which are not part of this model. Each stays one embedded token, so `n` from `WriteXML` counts each embedded reader as one token.
- History.Tokens: `xmlstream.Wrap` and `xmlstream.MultiReader` are modelled by their effect on the stream.
- History.TokenWriter: an encoder's failure is modelled as a writer that accepts a fixed number of tokens.
- History.MarshalXML: `xml.Encoder`'s own checks (nesting and namespace prefixes) are not modelled.
- History.QueryElementInjective: only one direction is proved. Two queries whose times differ only in sub-second parts give the same element, unless one of those times is the zero time. A zero time and a non-zero time with zero whole seconds normalise alike but give different elements (the first leaves `start` unset), so equal normalised queries need not give equal elements.
- History.Interpret: the archive's reading of the form is a reference used to state what the element carries. It is not code of this library.
- `history/history.go` (`Fetch`, `FetchIQ`) is an IQ round trip with a random ID. It is left out as I/O.
- `config.go` is not part of this model: it builds structs from foreign types.

## Findings

| source | as written | input that shows it | evidently intended | confidence | as-written member | corrected member |
|---|---|---|---|---|---|---|
| disco/caps.go:80 | the cache map is never made, and a successful request stores into it | a zero-value `CapsHandler{}` gets a presence without a caps element, and the discovery request succeeds | the map is made before the first store, so the answer is cached | high; not executed | DiscoCaps.ZeroHandlerPanics | DiscoCaps.MadeHandlerCaches |
| disco/caps.go:167-170 | the digest is appended to `dst` and the whole is Base64-encoded | any non-nil `dst` of one byte, such as `"a"` | `dst` followed by the Base64 of the digest, as the doc comment says | medium; not executed | DiscoHash.AppendHashEncodesDst | DiscoHash.AppendedHash |
