/** Session keys of candidates: from lists of tagged byte strings to decoded keys and back. */
module KeyCodec {
  import opened Prelude
  import opened Seed

  type KeyId = seq<Byte>

  datatype CandidateKey = CandidateKey(id: KeyId, bytes: seq<Byte>)

  /** A session key type with the fixed width of its encoding. */
  datatype KeySpec = KeySpec(id: KeyId, width: nat)

  const MAX_ENCODED := 1024

  function Find(keys: seq<CandidateKey>, id: KeyId): Option<seq<Byte>> {
    if keys == [] then None else if keys[0].id == id then Some(keys[0].bytes) else Find(keys[1..], id)
  }

  function FindLast(keys: seq<CandidateKey>, id: KeyId): Option<seq<Byte>> {
    if keys == [] then None
    else if Last(keys).id == id then Some(Last(keys).bytes) else FindLast(keys[..|keys| - 1], id)
  }

  type Lookup = KeyId -> Option<seq<Byte>>

  /** Required keys concatenated in the order of their types, within the bound. */
  function Collect(specs: seq<KeySpec>, lookup: Lookup): Option<seq<Byte>> {
    if specs == [] then Some([])
    else
      var n := |specs| - 1;
      match (Collect(specs[..n], lookup), lookup(specs[n].id))
      case (Some(init), Some(b)) => if |init| + |b| <= MAX_ENCODED then Some(init + b) else None
      case _ => None
  }

  /** Decoding takes each field's width in turn and ignores what follows the last field. */
  function Decode(specs: seq<KeySpec>, bytes: seq<Byte>): Option<seq<seq<Byte>>> {
    if specs == [] then Some([])
    else if |bytes| < specs[0].width then None
    else
      match Decode(specs[1..], bytes[specs[0].width..])
      case None => None
      case Some(rest) => Some([bytes[..specs[0].width]] + rest)
  }

  function MaybeFromLookup(specs: seq<KeySpec>, lookup: Lookup): Option<seq<seq<Byte>>> {
    match Collect(specs, lookup)
    case None => None
    case Some(bytes) => Decode(specs, bytes)
  }

  function MaybeFrom(specs: seq<KeySpec>, keys: seq<CandidateKey>): Option<seq<seq<Byte>>> {
    MaybeFromLookup(specs, id => Find(keys, id))
  }

  method TryMaybeFrom(specs: seq<KeySpec>, keys: seq<CandidateKey>) returns (r: Option<seq<seq<Byte>>>)
    ensures r == MaybeFrom(specs, keys)
  {
    ghost var lookup: Lookup := id => Find(keys, id);
    var encoded: seq<Byte> := [];
    for i := 0 to |specs|
      invariant Collect(specs[..i], lookup) == Some(encoded)
    {
      assert specs[..i + 1][..i] == specs[..i];
      var key := Find(keys, specs[i].id);
      if key.None? || |encoded| + |key.value| > MAX_ENCODED {
        CollectStaysNone(specs, lookup, i + 1);
        CollectLookup(specs, keys, lookup);
        return None;
      }
      encoded := encoded + key.value;
    }
    assert specs[..|specs|] == specs;
    CollectLookup(specs, keys, lookup);
    return Decode(specs, encoded);
  }

  lemma {:induction false} CollectStaysNone(specs: seq<KeySpec>, lookup: Lookup, i: nat)
    requires i <= |specs| && Collect(specs[..i], lookup) == None
    ensures Collect(specs, lookup) == None
    decreases |specs| - i
  {
    if i < |specs| {
      assert specs[..i + 1][..i] == specs[..i];
      CollectStaysNone(specs, lookup, i + 1);
    } else {
      assert specs[..i] == specs;
    }
  }

  /** Only the answers for the required ids matter. */
  lemma {:induction false} CollectAgrees(specs: seq<KeySpec>, f: Lookup, g: Lookup)
    requires forall i :: 0 <= i < |specs| ==> f(specs[i].id) == g(specs[i].id)
    ensures Collect(specs, f) == Collect(specs, g)
  {
    if specs != [] {
      CollectAgrees(specs[..|specs| - 1], f, g);
    }
  }

  lemma CollectLookup(specs: seq<KeySpec>, keys: seq<CandidateKey>, lookup: Lookup)
    requires forall id :: lookup(id) == Find(keys, id)
    ensures MaybeFrom(specs, keys) == MaybeFromLookup(specs, lookup)
  {
    CollectAgrees(specs, id => Find(keys, id), lookup);
  }

  // ----- Round trip -----

  ghost predicate WellSized(specs: seq<KeySpec>, vals: seq<seq<Byte>>) {
    |vals| == |specs| && forall i :: 0 <= i < |specs| ==> |vals[i]| == specs[i].width
  }

  ghost predicate DistinctSpecs(specs: seq<KeySpec>) {
    forall i, j :: 0 <= i < j < |specs| ==> specs[i].id != specs[j].id
  }

  function TotalWidth(specs: seq<KeySpec>): nat {
    if specs == [] then 0 else TotalWidth(specs[..|specs| - 1]) + Last(specs).width
  }

  /** The candidate keys published for given session keys. */
  function Publish(specs: seq<KeySpec>, vals: seq<seq<Byte>>): (r: seq<CandidateKey>)
    requires |vals| == |specs|
    ensures |r| == |specs|
    ensures forall i :: 0 <= i < |specs| ==> r[i] == CandidateKey(specs[i].id, vals[i])
  {
    seq(|specs|, i requires 0 <= i < |specs| => CandidateKey(specs[i].id, vals[i]))
  }

  lemma {:induction false} FindAt(keys: seq<CandidateKey>, i: nat)
    requires i < |keys| && forall j :: 0 <= j < i ==> keys[j].id != keys[i].id
    ensures Find(keys, keys[i].id) == Some(keys[i].bytes)
  {
    if 0 < i {
      FindAt(keys[1..], i - 1);
    }
  }

  lemma {:induction false} FindLastAt(keys: seq<CandidateKey>, i: nat)
    requires i < |keys| && forall j :: i < j < |keys| ==> keys[j].id != keys[i].id
    ensures FindLast(keys, keys[i].id) == Some(keys[i].bytes)
  {
    if i < |keys| - 1 {
      assert keys[|keys| - 1].id != keys[i].id;
      FindLastAt(keys[..|keys| - 1], i);
    }
  }

  lemma {:induction false} CollectConcats(specs: seq<KeySpec>, vals: seq<seq<Byte>>, lookup: Lookup)
    requires WellSized(specs, vals)
    requires forall i :: 0 <= i < |specs| ==> lookup(specs[i].id) == Some(vals[i])
    ensures |Flatten(vals)| == TotalWidth(specs)
    ensures Collect(specs, lookup) == if TotalWidth(specs) <= MAX_ENCODED then Some(Flatten(vals)) else None
  {
    if specs != [] {
      var n := |specs| - 1;
      CollectConcats(specs[..n], vals[..n], lookup);
      assert vals == vals[..n] + [vals[n]];
      FlattenAppend(vals[..n], [vals[n]]);
      assert Flatten([vals[n]]) == vals[n];
    }
  }

  lemma {:induction false} DecodeConcat(specs: seq<KeySpec>, vals: seq<seq<Byte>>, trailing: seq<Byte>)
    requires WellSized(specs, vals)
    ensures Decode(specs, Flatten(vals) + trailing) == Some(vals)
  {
    if specs != [] {
      var bytes := Flatten(vals) + trailing;
      assert bytes[..specs[0].width] == vals[0];
      assert bytes[specs[0].width..] == Flatten(vals[1..]) + trailing;
      DecodeConcat(specs[1..], vals[1..], trailing);
      assert [vals[0]] + vals[1..] == vals;
    }
  }

  /** Session keys come back out of their published form if and only if they fit the bound. */
  lemma RoundTripIff(specs: seq<KeySpec>, vals: seq<seq<Byte>>)
    requires WellSized(specs, vals) && DistinctSpecs(specs)
    ensures MaybeFrom(specs, Publish(specs, vals)) ==
            if TotalWidth(specs) <= 1024 then Some(vals) else None
  {
    var keys := Publish(specs, vals);
    var lookup: Lookup := id => Find(keys, id);
    forall i | 0 <= i < |specs| ensures lookup(specs[i].id) == Some(vals[i]) {
      FindAt(keys, i);
    }
    CollectConcats(specs, vals, lookup);
    CollectLookup(specs, keys, lookup);
    assert Flatten(vals) + [] == Flatten(vals);
    DecodeConcat(specs, vals, []);
  }

  // ----- Order and the map form -----

  ghost predicate DistinctIds(keys: seq<CandidateKey>) {
    forall i, j :: 0 <= i < j < |keys| ==> keys[i].id != keys[j].id
  }

  lemma {:induction false} FindSound(keys: seq<CandidateKey>, id: KeyId)
    ensures Find(keys, id).Some? ==> CandidateKey(id, Find(keys, id).value) in keys
    ensures Find(keys, id).None? ==> forall k :: k in keys ==> k.id != id
  {
    if keys != [] && keys[0].id != id {
      FindSound(keys[1..], id);
    }
  }

  lemma FindIgnoresOrder(keys: seq<CandidateKey>, keys': seq<CandidateKey>, id: KeyId)
    requires DistinctIds(keys) && DistinctIds(keys')
    requires forall k :: k in keys <==> k in keys'
    ensures Find(keys, id) == Find(keys', id)
  {
    FindSound(keys, id);
    FindSound(keys', id);
    if Find(keys, id).Some? {
      var k := CandidateKey(id, Find(keys, id).value);
      var i :| 0 <= i < |keys'| && keys'[i] == k;
      FindAt(keys', i);
    }
  }

  /** Without duplicate ids, the decoded keys do not depend on the order of the list. */
  lemma MaybeFromIgnoresOrder(specs: seq<KeySpec>, keys: seq<CandidateKey>, keys': seq<CandidateKey>)
    requires DistinctIds(keys) && DistinctIds(keys')
    requires forall k :: k in keys <==> k in keys'
    ensures MaybeFrom(specs, keys) == MaybeFrom(specs, keys')
  {
    forall id: KeyId ensures Find(keys, id) == Find(keys', id) {
      FindIgnoresOrder(keys, keys', id);
    }
    CollectLookup(specs, keys, id => Find(keys', id));
    CollectLookup(specs, keys', id => Find(keys', id));
  }

  /** The map form; strings are their UTF-8 bytes, and a later duplicate replaces an earlier one. None
      stands for the panic on an id that is no valid UTF-8, as `utf8` decides. */
  function ToMap(utf8: KeyId -> bool, keys: seq<CandidateKey>): Option<map<KeyId, seq<Byte>>> {
    if keys == [] then Some(map[])
    else
      match ToMap(utf8, keys[..|keys| - 1])
      case None => None
      case Some(m) => if utf8(Last(keys).id) then Some(m[Last(keys).id := Last(keys).bytes]) else None
  }

  /** The conversion panics exactly on an id that is no valid UTF-8; otherwise the last entry of an id
      stays. */
  lemma {:induction false} ToMapLooksUpLast(utf8: KeyId -> bool, keys: seq<CandidateKey>, id: KeyId)
    ensures ToMap(utf8, keys).Some? <==> forall k :: k in keys ==> utf8(k.id)
    ensures ToMap(utf8, keys).Some? ==>
      var m := ToMap(utf8, keys).value;
      && (id in m <==> FindLast(keys, id).Some?)
      && (id in m ==> Some(m[id]) == FindLast(keys, id))
      && (id in m ==> exists k :: k in keys && k.id == id)
  {
    if keys != [] {
      ToMapLooksUpLast(utf8, keys[..|keys| - 1], id);
      assert keys == keys[..|keys| - 1] + [Last(keys)];
      assert Last(keys) in keys;
    }
  }

  /** Back from the map; refuses a key whose name is not four bytes long. The map's iteration order is
      left open. */
  method FromMap(m: map<KeyId, seq<Byte>>) returns (r: Option<seq<CandidateKey>>)
    ensures r.Some? <==> forall id :: id in m ==> |id| == 4
    ensures r.Some? ==> DistinctIds(r.value)
    ensures r.Some? ==> forall k :: k in r.value <==> k.id in m && m[k.id] == k.bytes
  {
    var acc: seq<CandidateKey> := [];
    var todo := m.Keys;
    while todo != {}
      invariant todo <= m.Keys && DistinctIds(acc)
      invariant forall k :: k in acc <==> k.id in m && k.id !in todo && m[k.id] == k.bytes
      invariant forall id :: id in m.Keys - todo ==> |id| == 4
    {
      var id :| id in todo;
      if |id| != 4 {
        return None;
      }
      assert forall i :: 0 <= i < |acc| ==> acc[i] in acc;
      acc := acc + [CandidateKey(id, m[id])];
      todo := todo - {id};
    }
    return Some(acc);
  }

  ghost predicate FromMapOf(m: map<KeyId, seq<Byte>>, keys: seq<CandidateKey>) {
    DistinctIds(keys) && forall k :: k in keys <==> k.id in m && m[k.id] == k.bytes
  }

  /** `back` is what comes back from the map form of `keys`. */
  ghost predicate Returns(utf8: KeyId -> bool, keys: seq<CandidateKey>, back: seq<CandidateKey>) {
    ToMap(utf8, keys).Some? && FromMapOf(ToMap(utf8, keys).value, back)
  }

  /** Passing through the map form replaces the first entry of every id by the last one. */
  lemma ThroughMap(utf8: KeyId -> bool, specs: seq<KeySpec>, keys: seq<CandidateKey>, back: seq<CandidateKey>)
    requires Returns(utf8, keys, back)
    ensures MaybeFrom(specs, back) == MaybeFromLookup(specs, id => FindLast(keys, id))
  {
    var m := ToMap(utf8, keys).value;
    forall id: KeyId ensures Find(back, id) == FindLast(keys, id) {
      ToMapLooksUpLast(utf8, keys, id);
      FindSound(back, id);
      if id in m {
        assert CandidateKey(id, m[id]) in back;
      }
    }
    CollectLookup(specs, back, id => FindLast(keys, id));
  }

  lemma {:induction false} TotalWidthFront(specs: seq<KeySpec>)
    requires specs != []
    ensures TotalWidth(specs) == specs[0].width + TotalWidth(specs[1..])
  {
    if 1 < |specs| {
      var n := |specs| - 1;
      TotalWidthFront(specs[..n]);
      assert specs[1..][..n - 1] == specs[..n][1..];
      assert Last(specs[1..]) == Last(specs);
    }
  }

  /** The bytes that decoding looks at, if there are enough. */
  function Needed(specs: seq<KeySpec>, encoded: Option<seq<Byte>>): Option<seq<Byte>> {
    if encoded.None? || |encoded.value| < TotalWidth(specs) then None else Some(encoded.value[..TotalWidth(specs)])
  }

  /** Decoding succeeds exactly with enough bytes, and loses none of those it looks at. */
  lemma {:induction false} DecodeLooksAt(specs: seq<KeySpec>, bytes: seq<Byte>)
    ensures Decode(specs, bytes).Some? <==> TotalWidth(specs) <= |bytes|
    ensures Decode(specs, bytes).Some? ==>
      WellSized(specs, Decode(specs, bytes).value) && Flatten(Decode(specs, bytes).value) == bytes[..TotalWidth(specs)]
  {
    if specs != [] {
      TotalWidthFront(specs);
      var w := specs[0].width;
      if w <= |bytes| {
        DecodeLooksAt(specs[1..], bytes[w..]);
        if TotalWidth(specs) <= |bytes| {
          assert bytes[..TotalWidth(specs)] == bytes[..w] + bytes[w..][..TotalWidth(specs[1..])];
          assert Decode(specs, bytes).value[1..] == Decode(specs[1..], bytes[w..]).value;
        }
      }
    }
  }

  lemma DecodeAgreesIff(specs: seq<KeySpec>, a: seq<Byte>, b: seq<Byte>)
    ensures Decode(specs, a) == Decode(specs, b) <==> Needed(specs, Some(a)) == Needed(specs, Some(b))
  {
    DecodeLooksAt(specs, a);
    DecodeLooksAt(specs, b);
    if Needed(specs, Some(a)) == Needed(specs, Some(b)) && TotalWidth(specs) <= |a| {
      var x, y := Decode(specs, a).value, Decode(specs, b).value;
      assert Flatten(x) + [] == Flatten(x) && Flatten(y) + [] == Flatten(y);
      DecodeConcat(specs, x, []);
      DecodeConcat(specs, y, []);
    }
  }

  lemma MaybeFromAgreesIff(specs: seq<KeySpec>, f: Lookup, g: Lookup)
    ensures MaybeFromLookup(specs, f) == MaybeFromLookup(specs, g)
            <==> Needed(specs, Collect(specs, f)) == Needed(specs, Collect(specs, g))
  {
    match (Collect(specs, f), Collect(specs, g))
    case (Some(a), Some(b)) => DecodeAgreesIff(specs, a, b);
    case (Some(a), None) => DecodeLooksAt(specs, a);
    case (None, Some(b)) => DecodeLooksAt(specs, b);
    case (None, None) =>
  }

  /** For every list: passing through the map form keeps the decoded keys if and only if the required
      bytes assembled from first entries and from last entries are the same, or both are missing. */
  lemma ThroughMapIff(utf8: KeyId -> bool, specs: seq<KeySpec>, keys: seq<CandidateKey>, back: seq<CandidateKey>)
    requires Returns(utf8, keys, back)
    ensures MaybeFrom(specs, keys) == MaybeFrom(specs, back) <==>
            Needed(specs, Collect(specs, id => Find(keys, id))) == Needed(specs, Collect(specs, id => FindLast(keys, id)))
  {
    ThroughMap(utf8, specs, keys, back);
    var first: Lookup, last: Lookup := id => Find(keys, id), id => FindLast(keys, id);
    MaybeFromAgreesIff(specs, first, last);
    CollectLookup(specs, keys, first);
    CollectAgrees(specs, first, id => Find(keys, id));
    CollectAgrees(specs, last, id => FindLast(keys, id));
    CollectLookupAgrees(specs, last, id => FindLast(keys, id));
  }

  /** Every entry of a required id has its proper width. */
  ghost predicate ProperWidths(specs: seq<KeySpec>, keys: seq<CandidateKey>) {
    forall i, k :: 0 <= i < |specs| && k in keys && k.id == specs[i].id ==> |k.bytes| == specs[i].width
  }

  lemma {:induction false} CollectNoneIff(specs: seq<KeySpec>, lookup: Lookup)
    requires forall i :: 0 <= i < |specs| && lookup(specs[i].id).Some? ==> |lookup(specs[i].id).value| == specs[i].width
    ensures Collect(specs, lookup).None? <==>
            TotalWidth(specs) > 1024 || exists i :: 0 <= i < |specs| && lookup(specs[i].id).None?
    ensures Collect(specs, lookup).Some? ==> |Collect(specs, lookup).value| == TotalWidth(specs)
  {
    if specs != [] {
      var n := |specs| - 1;
      CollectNoneIff(specs[..n], lookup);
      if i :| 0 <= i < |specs| && lookup(specs[i].id).None? {
        assert i < n ==> lookup(specs[..n][i].id).None?;
      }
      if i :| 0 <= i < n && lookup(specs[..n][i].id).None? {
        assert lookup(specs[i].id).None?;
      }
    }
  }

  lemma {:induction false} CollectInjective(specs: seq<KeySpec>, f: Lookup, g: Lookup)
    requires Collect(specs, f).Some? && Collect(specs, f) == Collect(specs, g)
    requires forall i :: 0 <= i < |specs| && f(specs[i].id).Some? ==> |f(specs[i].id).value| == specs[i].width
    requires forall i :: 0 <= i < |specs| && g(specs[i].id).Some? ==> |g(specs[i].id).value| == specs[i].width
    ensures forall i :: 0 <= i < |specs| ==> f(specs[i].id) == g(specs[i].id)
  {
    if specs != [] {
      var n := |specs| - 1;
      var a, b := Collect(specs[..n], f).value, Collect(specs[..n], g).value;
      var x, y := f(specs[n].id).value, g(specs[n].id).value;
      assert a + x == b + y && |x| == |y|;
      assert a == (a + x)[..|a|] && b == (b + y)[..|b|] && x == (a + x)[|a|..] && y == (b + y)[|b|..];
      CollectInjective(specs[..n], f, g);
      forall i | 0 <= i < |specs| ensures f(specs[i].id) == g(specs[i].id) {
        assert i < n ==> specs[..n][i] == specs[i];
      }
    }
  }

  lemma {:induction false} FindLastSound(keys: seq<CandidateKey>, id: KeyId)
    ensures FindLast(keys, id).Some? ==> CandidateKey(id, FindLast(keys, id).value) in keys
    ensures FindLast(keys, id).None? ==> forall k :: k in keys ==> k.id != id
  {
    if keys != [] && Last(keys).id != id {
      FindLastSound(keys[..|keys| - 1], id);
      assert keys == keys[..|keys| - 1] + [Last(keys)];
    }
  }

  /** When the entries of required ids have their proper width, the map form decodes to the same keys if and
      only if the first and last entry of each required id are equal, or nothing can be decoded either way:
      a required id is missing or the keys exceed the bound. */
  lemma ProperWidthsThroughMapIff(
    utf8: KeyId -> bool, specs: seq<KeySpec>, keys: seq<CandidateKey>, back: seq<CandidateKey>)
    requires Returns(utf8, keys, back) && ProperWidths(specs, keys)
    ensures MaybeFrom(specs, keys) == MaybeFrom(specs, back) <==>
            || (forall i :: 0 <= i < |specs| ==> Find(keys, specs[i].id) == FindLast(keys, specs[i].id))
            || TotalWidth(specs) > MAX_ENCODED
            || exists i :: 0 <= i < |specs| && forall k :: k in keys ==> k.id != specs[i].id
  {
    var first: Lookup, last: Lookup := id => Find(keys, id), id => FindLast(keys, id);
    forall i | 0 <= i < |specs|
      ensures first(specs[i].id).None? <==> forall k :: k in keys ==> k.id != specs[i].id
      ensures last(specs[i].id).None? <==> forall k :: k in keys ==> k.id != specs[i].id
      ensures first(specs[i].id).Some? ==> |first(specs[i].id).value| == specs[i].width
      ensures last(specs[i].id).Some? ==> |last(specs[i].id).value| == specs[i].width
    {
      FindSound(keys, specs[i].id);
      FindLastSound(keys, specs[i].id);
    }
    ThroughMap(utf8, specs, keys, back);
    CollectLookup(specs, keys, first);
    CollectLookupAgrees(specs, last, id => FindLast(keys, id));
    MaybeFromAgreesIff(specs, first, last);
    CollectNoneIff(specs, first);
    CollectNoneIff(specs, last);
    NeededOfExact(specs, first, last);
  }

  lemma NeededOfExact(specs: seq<KeySpec>, f: Lookup, g: Lookup)
    requires Collect(specs, f).None? <==> Collect(specs, g).None?
    requires Collect(specs, f).Some? ==> |Collect(specs, f).value| == TotalWidth(specs)
    requires Collect(specs, g).Some? ==> |Collect(specs, g).value| == TotalWidth(specs)
    requires forall i :: 0 <= i < |specs| && f(specs[i].id).Some? ==> |f(specs[i].id).value| == specs[i].width
    requires forall i :: 0 <= i < |specs| && g(specs[i].id).Some? ==> |g(specs[i].id).value| == specs[i].width
    ensures Needed(specs, Collect(specs, f)) == Needed(specs, Collect(specs, g)) <==>
            Collect(specs, f).None? || forall i :: 0 <= i < |specs| ==> f(specs[i].id) == g(specs[i].id)
  {
    if Collect(specs, f).Some? {
      var a, b := Collect(specs, f).value, Collect(specs, g).value;
      assert a[..TotalWidth(specs)] == a && b[..TotalWidth(specs)] == b;
      if a == b {
        CollectInjective(specs, f, g);
      }
      if forall i :: 0 <= i < |specs| ==> f(specs[i].id) == g(specs[i].id) {
        CollectAgrees(specs, f, g);
      }
    }
  }

  lemma CollectLookupAgrees(specs: seq<KeySpec>, f: Lookup, g: Lookup)
    requires forall id :: f(id) == g(id)
    ensures MaybeFromLookup(specs, f) == MaybeFromLookup(specs, g)
  {
    CollectAgrees(specs, f, g);
  }

  /** Two entries of one id with different bytes of the proper width: the list form decodes the first, the
      map form the second. */
  lemma DuplicateIdChangesKeys(
    utf8: KeyId -> bool, spec: KeySpec, first: seq<Byte>, last: seq<Byte>, back: seq<CandidateKey>)
    requires |first| == spec.width && |last| == spec.width && spec.width <= MAX_ENCODED
    requires Returns(utf8, [CandidateKey(spec.id, first), CandidateKey(spec.id, last)], back)
    ensures MaybeFrom([spec], [CandidateKey(spec.id, first), CandidateKey(spec.id, last)]) == Some([first])
    ensures MaybeFrom([spec], back) == Some([last])
  {
    var keys := [CandidateKey(spec.id, first), CandidateKey(spec.id, last)];
    ThroughMap(utf8, [spec], keys, back);
    OneKeyDecodes(spec, first, id => Find(keys, id));
    OneKeyDecodes(spec, last, id => FindLast(keys, id));
    CollectLookup([spec], keys, id => Find(keys, id));
    CollectLookupAgrees([spec], id => FindLast(keys, id), id => FindLast(keys, id));
  }

  lemma OneKeyDecodes(spec: KeySpec, bytes: seq<Byte>, lookup: Lookup)
    requires |bytes| == spec.width <= MAX_ENCODED && lookup(spec.id) == Some(bytes)
    ensures MaybeFromLookup([spec], lookup) == Some([bytes])
  {
    assert [spec][..0] == [] && TotalWidth([spec]) == spec.width;
    CollectConcats([spec], [bytes], lookup);
    assert Flatten([bytes]) + [] == Flatten([bytes]);
    DecodeConcat([spec], [bytes], []);
  }

  /** Without duplicates the map form changes nothing. */
  lemma ThroughMapUnchanged(utf8: KeyId -> bool, specs: seq<KeySpec>, keys: seq<CandidateKey>, back: seq<CandidateKey>)
    requires DistinctIds(keys) && Returns(utf8, keys, back)
    ensures MaybeFrom(specs, back) == MaybeFrom(specs, keys)
  {
    ThroughMap(utf8, specs, keys, back);
    forall id: KeyId ensures FindLast(keys, id) == Find(keys, id) {
      FindSound(keys, id);
      ToMapLooksUpLast(utf8, keys, id);
      if Find(keys, id).Some? {
        var i :| 0 <= i < |keys| && keys[i] == CandidateKey(id, Find(keys, id).value);
        FindLastAt(keys, i);
      }
    }
    CollectLookup(specs, keys, id => FindLast(keys, id));
  }
}
