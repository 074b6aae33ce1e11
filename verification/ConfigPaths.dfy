/** Config fields addressed by a path into a JSON file. */
module ConfigPaths {
  import opened Prelude

  datatype Json = Null | Scalar(value: nat) | Array(items: seq<Json>) | Object(fields: map<string, Json>)

  type Path = seq<string>

  function Child(j: Json, field: string): Option<Json> {
    if j.Object? && field in j.fields then Some(j.fields[field]) else None
  }

  function Extract(j: Json, path: Path): Option<Json>
    decreases |path|
  {
    if path == [] then Some(j)
    else match Child(j, path[0])
      case None => None
      case Some(c) => Extract(c, path[1..])
  }

  /** Fields of the node a path step goes through; null counts as an empty object. */
  function FieldsOf(j: Json): map<string, Json> {
    if j.Object? then j.fields else map[]
  }

  /** Where the next step lands: the child if it is an object, else a fresh empty one. */
  function Descend(j: Json, field: string): Json {
    var c := Child(j, field);
    if c.Some? && c.value.Object? then c.value else Object(map[])
  }

  predicate Indexable(j: Json) {
    j.Object? || j.Null?
  }

  /** None when the root is a scalar or an array, which the source's indexing panics on. */
  function Save(j: Json, path: Path, v: Json): Option<Json>
    decreases |path|
  {
    if path == [] then Some(v)
    else if !Indexable(j) then None
    else match Save(Descend(j, path[0]), path[1..], v)
      case None => None
      case Some(c) => Some(Object(FieldsOf(j)[path[0] := c]))
  }

  /** Nodes left behind by the cursor, outermost first. */
  datatype Frame = Frame(fields: map<string, Json>, field: string)

  function Rebuild(spine: seq<Frame>, j: Json): Json {
    if spine == [] then j
    else Rebuild(spine[..|spine| - 1], Object(Last(spine).fields[Last(spine).field := j]))
  }

  /** The source moves a mutable cursor down the tree; here the cursor is the focused node together with
      the nodes above it. */
  method SaveToFile(file: Option<Json>, path: Path, v: Json) returns (r: Option<Json>)
    ensures r == Save(if file.Some? then file.value else Object(map[]), path, v)
  {
    var json := if file.Some? then file.value else Object(map[]);
    if path != [] && !Indexable(json) {
      return None;
    }
    var head := json;
    var spine: seq<Frame> := [];
    assert path[0..] == path;
    SaveSome(json, path, v);
    for i := 0 to |path|
      invariant i < |path| ==> Indexable(head)
      invariant Save(head, path[i..], v).Some?
      invariant Some(Rebuild(spine, Save(head, path[i..], v).value)) == Save(json, path, v)
    {
      assert path[i..][1..] == path[i + 1..];
      var next := Descend(head, path[i]);
      var frame := Frame(FieldsOf(head), path[i]);
      assert (spine + [frame])[..|spine|] == spine;
      spine := spine + [frame];
      head := next;
    }
    r := Some(Rebuild(spine, v));
  }

  /** How values of a field's type are written to and read from JSON. */
  datatype Codec<!T> = Codec(encode: T -> Json, decode: Json -> Option<T>)

  predicate Survives<T(==)>(codec: Codec<T>, value: T) {
    codec.decode(codec.encode(value)) == Some(value)
  }

  /** The field's value: the node at its path, if it is there and of the field's type. */
  function Load<T>(codec: Codec<T>, j: Json, path: Path): Option<T> {
    match Extract(j, path)
    case None => None
    case Some(node) => codec.decode(node)
  }

  method ExtractFrom<T>(codec: Codec<T>, json: Json, path: Path) returns (r: Option<T>)
    ensures r == Load(codec, json, path)
  {
    var node := Some(json);
    assert path[0..] == path;
    for i := 0 to |path|
      invariant Extract(json, path) == if node.Some? then Extract(node.value, path[i..]) else None
    {
      assert path[i..][1..] == path[i + 1..];
      if node.None? {
        return None;
      }
      node := Child(node.value, path[i]);
    }
    if node.None? {
      return None;
    }
    r := codec.decode(node.value);
  }

  /** Saving fails exactly on a non-empty path into a root that is neither an object nor null. */
  lemma {:induction false} SaveSome(j: Json, path: Path, v: Json)
    ensures Save(j, path, v).Some? <==> path == [] || j.Object? || j.Null?
    decreases |path|
  {
    if path != [] && Indexable(j) {
      SaveSome(Descend(j, path[0]), path[1..], v);
    }
  }

  /** The paths part at some field. */
  predicate Diverge(p: Path, q: Path)
    decreases |p|
  {
    p != [] && q != [] && (p[0] != q[0] || Diverge(p[1..], q[1..]))
  }

  /** Below the saved path the saved value is found, and nothing of what was there before. */
  lemma {:induction false} ExtractAfterSave(j: Json, path: Path, v: Json, below: Path)
    requires Save(j, path, v).Some?
    ensures Extract(Save(j, path, v).value, path + below) == Extract(v, below)
    decreases |path|
  {
    if path == [] {
      assert path + below == below;
    } else {
      ExtractAfterSave(Descend(j, path[0]), path[1..], v, below);
      assert (path + below)[1..] == path[1..] + below;
    }
  }

  /** A saved field reads back if and only if its value survives being written and read. */
  lemma LoadAfterSaveIff<T>(codec: Codec<T>, j: Json, path: Path, value: T)
    requires Save(j, path, codec.encode(value)).Some?
    ensures Load(codec, Save(j, path, codec.encode(value)).value, path) == Some(value)
            <==> Survives(codec, value)
  {
    ExtractAfterSave(j, path, codec.encode(value), []);
    assert path + [] == path;
  }

  /** Every path that parts from the saved one extracts as before, also where a scalar in between had to
      be replaced by an object. */
  lemma {:induction false} OtherPathsKeep(j: Json, path: Path, v: Json, other: Path)
    requires Save(j, path, v).Some? && Diverge(path, other)
    ensures Extract(Save(j, path, v).value, other) == Extract(j, other)
    decreases |path|
  {
    if path[0] == other[0] {
      var d := Descend(j, path[0]);
      OtherPathsKeep(d, path[1..], v, other[1..]);
      var c := Child(j, path[0]);
      if c.Some? && !c.value.Object? {
        NothingInside(c.value, other[1..]);
        NothingInside(Object(map[]), other[1..]);
      } else if c.None? {
        NothingInside(Object(map[]), other[1..]);
      }
    }
  }

  lemma NothingInside(j: Json, path: Path)
    requires path != [] && FieldsOf(j) == map[]
    ensures Extract(j, path) == None
  {
  }

  /** Above the saved path stands what saving the rest of the path there gives. */
  lemma {:induction false} AboveSavedPath(j: Json, above: Path, rest: Path, v: Json)
    requires rest != [] && Save(j, above + rest, v).Some?
    ensures
      var node := Extract(j, above);
      var before := if node.Some? && node.value.Object? then node.value else Object(map[]);
      Extract(Save(j, above + rest, v).value, above) == Save(before, rest, v)
    decreases |above|
  {
    var path := above + rest;
    if above == [] {
      assert path == rest;
      SaveOnNull(j, rest, v);
    } else {
      assert path[1..] == above[1..] + rest;
      AboveSavedPath(Descend(j, path[0]), above[1..], rest, v);
      var c := Child(j, path[0]);
      if (c.None? || !c.value.Object?) && above[1..] != [] {
        NothingInside(Object(map[]), above[1..]);
        if c.Some? {
          NothingInside(c.value, above[1..]);
        }
      }
    }
  }

  lemma SaveOnNull(j: Json, path: Path, v: Json)
    requires path != [] && Indexable(j)
    ensures Save(j, path, v) == Save(if j.Object? then j else Object(map[]), path, v)
  {
  }

  /** A later save to the same path wins, as if the first had not happened. */
  lemma {:induction false} SecondSaveWins(j: Json, path: Path, v: Json, w: Json)
    requires Save(j, path, v).Some?
    ensures Save(Save(j, path, v).value, path, w) == Save(j, path, w)
    decreases |path|
  {
    if path != [] {
      var d := Descend(j, path[0]);
      SecondSaveWins(d, path[1..], v, w);
      var c := Save(d, path[1..], v).value;
      var j' := Save(j, path, v).value;
      if path[1..] != [] {
        assert c.Object?;
        assert Descend(j', path[0]) == c;
      }
      SaveSome(d, path[1..], w);
      var x := Save(d, path[1..], w).value;
      assert FieldsOf(j')[path[0] := x] == FieldsOf(j)[path[0] := x];
    }
  }

  /** Saving what is already there changes nothing. */
  lemma {:induction false} SavingTheSame(j: Json, path: Path, v: Json)
    requires Extract(j, path) == Some(v)
    ensures Save(j, path, v) == Some(j)
    decreases |path|
  {
    if path != [] {
      var c := Child(j, path[0]).value;
      SavingTheSame(c, path[1..], v);
      if path[1..] != [] {
        assert Descend(j, path[0]) == c;
      }
      assert j.fields[path[0] := c] == j.fields;
    }
  }

  // ----- Saving several fields -----

  datatype Field = Field(path: Path, value: Json)

  function SaveAll(j: Json, fields: seq<Field>): Option<Json>
    decreases |fields|
  {
    if fields == [] then Some(j)
    else match Save(j, fields[0].path, fields[0].value)
      case None => None
      case Some(j') => SaveAll(j', fields[1..])
  }

  ghost predicate Apart(fields: seq<Field>) {
    forall i, k :: 0 <= i < |fields| && 0 <= k < |fields| && i != k ==> Diverge(fields[i].path, fields[k].path)
  }

  lemma {:induction false} SaveAllKeeps(j: Json, fields: seq<Field>, other: Path)
    requires Indexable(j) && forall i :: 0 <= i < |fields| ==> Diverge(fields[i].path, other)
    ensures SaveAll(j, fields).Some? && Extract(SaveAll(j, fields).value, other) == Extract(j, other)
    decreases |fields|
  {
    if fields != [] {
      SaveSome(j, fields[0].path, fields[0].value);
      OtherPathsKeep(j, fields[0].path, fields[0].value, other);
      SaveAllKeeps(Save(j, fields[0].path, fields[0].value).value, fields[1..], other);
    }
  }

  /** After saving several fields at pairwise parting paths, every one of them reads back. */
  lemma {:induction false} AllReadable(j: Json, fields: seq<Field>, i: nat)
    requires Indexable(j) && Apart(fields) && i < |fields| && forall k :: 0 <= k < |fields| ==> fields[k].path != []
    ensures SaveAll(j, fields).Some? && Extract(SaveAll(j, fields).value, fields[i].path) == Some(fields[i].value)
    decreases |fields|
  {
    SaveSome(j, fields[0].path, fields[0].value);
    var j' := Save(j, fields[0].path, fields[0].value).value;
    if i == 0 {
      ExtractAfterSave(j, fields[0].path, fields[0].value, []);
      assert fields[0].path + [] == fields[0].path;
      SaveAllKeeps(j', fields[1..], fields[0].path);
    } else {
      AllReadable(j', fields[1..], i - 1);
    }
  }

  const CARDANO_FIELDS: seq<string> := [
    "security_parameter", "active_slots_coeff", "first_epoch_number", "first_slot_number",
    "epoch_duration_millis", "first_epoch_timestamp_millis", "slot_duration_millis"]

  /** Whole numbers of 64 bits, or 32 for the epoch number, and the slot coefficient, whose type is open. */
  datatype CardanoParameters<F> = CardanoParameters(
    securityParameter: nat, activeSlotsCoeff: F, firstEpochNumber: nat, firstSlotNumber: nat,
    epochDurationMillis: nat, firstEpochTimestampMillis: nat, slotDurationMillis: nat)

  /** The field paths with the written values, in the order they are saved. */
  function CardanoFields<F>(longs: Codec<nat>, ints: Codec<nat>, coefficients: Codec<F>, p: CardanoParameters<F>): seq<Field> {
    [Field(CardanoPath(0), longs.encode(p.securityParameter)),
     Field(CardanoPath(1), coefficients.encode(p.activeSlotsCoeff)),
     Field(CardanoPath(2), ints.encode(p.firstEpochNumber)),
     Field(CardanoPath(3), longs.encode(p.firstSlotNumber)),
     Field(CardanoPath(4), longs.encode(p.epochDurationMillis)),
     Field(CardanoPath(5), longs.encode(p.firstEpochTimestampMillis)),
     Field(CardanoPath(6), longs.encode(p.slotDurationMillis))]
  }

  function CardanoPath(i: nat): Path
    requires i < |CARDANO_FIELDS|
  {
    ["cardano", CARDANO_FIELDS[i]]
  }

  /** What the seven fields are read as, if all of them can be. */
  function LoadCardano<F>(longs: Codec<nat>, ints: Codec<nat>, coefficients: Codec<F>, j: Json): Option<CardanoParameters<F>> {
    match (Load(longs, j, CardanoPath(0)), Load(coefficients, j, CardanoPath(1)), Load(ints, j, CardanoPath(2)),
           Load(longs, j, CardanoPath(3)), Load(longs, j, CardanoPath(4)), Load(longs, j, CardanoPath(5)),
           Load(longs, j, CardanoPath(6)))
    case (Some(a), Some(b), Some(c), Some(d), Some(e), Some(f), Some(g)) => Some(CardanoParameters(a, b, c, d, e, f, g))
    case _ => None
  }

  lemma PartAtSecond(a: string, x: string, y: string)
    requires x != y
    ensures Diverge([a, x], [a, y])
  {
    assert [a, x][1..] == [x] && [a, y][1..] == [y];
  }

  lemma CardanoFieldReadable<F>(
    j: Json, longs: Codec<nat>, ints: Codec<nat>, coefficients: Codec<F>, p: CardanoParameters<F>, i: nat)
    requires Indexable(j) && i < |CARDANO_FIELDS|
    ensures
      var fields := CardanoFields(longs, ints, coefficients, p);
      SaveAll(j, fields).Some? && Extract(SaveAll(j, fields).value, CardanoPath(i)) == Some(fields[i].value)
  {
    var fields := CardanoFields(longs, ints, coefficients, p);
    assert forall k :: 0 <= k < |fields| ==> fields[k].path == CardanoPath(k);
    forall a, b | 0 <= a < |fields| && 0 <= b < |fields| && a != b ensures Diverge(fields[a].path, fields[b].path) {
      NamesDiffer(a, b);
      PartAtSecond("cardano", CARDANO_FIELDS[a], CARDANO_FIELDS[b]);
    }
    AllReadable(j, fields, i);
  }

  /** Each parameter is written at its own place in the file. */
  lemma CardanoParametersAtPaths<F>(
    j: Json, longs: Codec<nat>, ints: Codec<nat>, coefficients: Codec<F>, p: CardanoParameters<F>)
    requires Indexable(j)
    ensures
      var saved := SaveAll(j, CardanoFields(longs, ints, coefficients, p));
      && saved.Some?
      && Extract(saved.value, ["cardano", "security_parameter"]) == Some(longs.encode(p.securityParameter))
      && Extract(saved.value, ["cardano", "active_slots_coeff"]) == Some(coefficients.encode(p.activeSlotsCoeff))
      && Extract(saved.value, ["cardano", "first_epoch_number"]) == Some(ints.encode(p.firstEpochNumber))
      && Extract(saved.value, ["cardano", "first_slot_number"]) == Some(longs.encode(p.firstSlotNumber))
      && Extract(saved.value, ["cardano", "epoch_duration_millis"]) == Some(longs.encode(p.epochDurationMillis))
      && Extract(saved.value, ["cardano", "first_epoch_timestamp_millis"]) == Some(longs.encode(p.firstEpochTimestampMillis))
      && Extract(saved.value, ["cardano", "slot_duration_millis"]) == Some(longs.encode(p.slotDurationMillis))
  {
    CardanoFieldReadable(j, longs, ints, coefficients, p, 0);
    CardanoFieldReadable(j, longs, ints, coefficients, p, 1);
    CardanoFieldReadable(j, longs, ints, coefficients, p, 2);
    CardanoFieldReadable(j, longs, ints, coefficients, p, 3);
    CardanoFieldReadable(j, longs, ints, coefficients, p, 4);
    CardanoFieldReadable(j, longs, ints, coefficients, p, 5);
    CardanoFieldReadable(j, longs, ints, coefficients, p, 6);
  }

  /** Whatever the file held before, saving the Cardano parameters makes them readable again, given that
      the seven values survive being written and read. */
  lemma CardanoParametersReadable<F>(j: Json, longs: Codec<nat>, ints: Codec<nat>, coefficients: Codec<F>, p: CardanoParameters<F>)
    requires Indexable(j) && Survives(ints, p.firstEpochNumber) && Survives(coefficients, p.activeSlotsCoeff)
    requires Survives(longs, p.securityParameter) && Survives(longs, p.firstSlotNumber)
    requires Survives(longs, p.epochDurationMillis) && Survives(longs, p.firstEpochTimestampMillis)
    requires Survives(longs, p.slotDurationMillis)
    ensures SaveAll(j, CardanoFields(longs, ints, coefficients, p)).Some?
    ensures LoadCardano(longs, ints, coefficients, SaveAll(j, CardanoFields(longs, ints, coefficients, p)).value) == Some(p)
  {
    forall i: nat | i < |CARDANO_FIELDS|
      ensures
        var fields := CardanoFields(longs, ints, coefficients, p);
        SaveAll(j, fields).Some? && Extract(SaveAll(j, fields).value, CardanoPath(i)) == Some(fields[i].value)
    {
      CardanoFieldReadable(j, longs, ints, coefficients, p, i);
    }
  }

  lemma NamesDiffer(a: nat, b: nat)
    requires a < |CARDANO_FIELDS| && b < |CARDANO_FIELDS| && a != b
    ensures CARDANO_FIELDS[a] != CARDANO_FIELDS[b]
  {
    assert forall i :: 0 <= i < 7 ==> |CARDANO_FIELDS[i]| == [18, 18, 18, 17, 21, 28, 20][i];
    assert CARDANO_FIELDS[0][0] == 's' && CARDANO_FIELDS[1][0] == 'a' && CARDANO_FIELDS[2][0] == 'f';
  }
}
