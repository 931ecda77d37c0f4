/** The host application's layers and features, reduced to the parts the helpers read,
    and the helpers that only validate or reshape them: the layer check, the field
    listing and the attribute extraction of `src/layer_utils/vector_layer.py`. */
module VectorLayer {
  import opened Wrappers

  /** A field descriptor: only its name is ever read. */
  datatype Field = Field(name: string)

  /** The kinds of map layer the host distinguishes. */
  datatype LayerType =
    | VectorLayer
    | RasterLayer
    | PluginLayer
    | MeshLayer
    | VectorTileLayer
    | AnnotationLayer
    | PointCloudLayer
    | GroupLayer
    | TiledSceneLayer

  /** Geometry type tags the layer check accepts: point and polygon
      (line is 1, unknown 3, no geometry 4). */
  const PointGeometry: int := 0
  const PolygonGeometry: int := 2

  /** A map layer: its validity flag, its kind, its geometry type tag and its
      fields in the layer's own order. */
  datatype Layer = Layer(valid: bool, kind: LayerType, geometryType: int, fields: seq<Field>)

  const InvalidLayerMessage: string :=
    "<span style=\"color:red;\">Invalid Layer: Please select a valid vector layer.</span>"
  const NotVectorMessage: string :=
    "<span style=\"color:red;\">This is not a vector layer: Please select a valid vector layer.</span>"
  const BadGeometryMessage: string :=
    "<span style=\"color:red;\">Invalid Layer: Please select a valid point or polygon layer.</span>"

  /** The four checks of `checkVectorLayer`, in the order the source applies them. */
  datatype LayerCheck = NotNull | IsValid | IsVector | PointOrPolygon

  const LayerChecks: seq<LayerCheck> := [NotNull, IsValid, IsVector, PointOrPolygon]

  predicate Passes(check: LayerCheck, layer: Option<Layer>) {
    match check
    case NotNull => layer.Some?
    case IsValid => layer.Some? && layer.value.valid
    case IsVector => layer.Some? && layer.value.kind == VectorLayer
    case PointOrPolygon =>
      layer.Some? && (layer.value.geometryType == PointGeometry || layer.value.geometryType == PolygonGeometry)
  }

  /** The fixed message each check reports when it fails; the null and the invalid
      check share theirs. */
  function FailureMessage(check: LayerCheck): string {
    match check
    case NotNull => InvalidLayerMessage
    case IsValid => InvalidLayerMessage
    case IsVector => NotVectorMessage
    case PointOrPolygon => BadGeometryMessage
  }

  /** `checkVectorLayer`: `None` stands for Python's `None` layer.  The result is
      `(true, "")` exactly when every check passes; otherwise it carries the
      message of the first check, in source order, that fails. */
  function CheckVectorLayer(layer: Option<Layer>): (r: (bool, string))
    ensures r.0 <==> forall k :: 0 <= k < |LayerChecks| ==> Passes(LayerChecks[k], layer)
    ensures r.0 ==> r.1 == ""
    ensures !r.0 ==>
      exists k :: 0 <= k < |LayerChecks| && !Passes(LayerChecks[k], layer)
        && (forall j :: 0 <= j < k ==> Passes(LayerChecks[j], layer))
        && r.1 == FailureMessage(LayerChecks[k])
  {
    if layer.None? then
      assert !Passes(LayerChecks[0], layer);
      (false, InvalidLayerMessage)
    else if !layer.value.valid then
      assert !Passes(LayerChecks[1], layer);
      (false, InvalidLayerMessage)
    else if layer.value.kind != VectorLayer then
      assert !Passes(LayerChecks[2], layer);
      (false, NotVectorMessage)
    else if layer.value.geometryType != PointGeometry && layer.value.geometryType != PolygonGeometry then
      assert !Passes(LayerChecks[3], layer);
      (false, BadGeometryMessage)
    else
      (true, "")
  }

  /** `getVectorFields`: the field names in the layer's own order. */
  function GetVectorFields(layer: Layer): (names: seq<string>)
    ensures |names| == |layer.fields|
    ensures forall k :: 0 <= k < |names| ==> names[k] == layer.fields[k].name
  {
    seq(|layer.fields|, k requires 0 <= k < |layer.fields| => layer.fields[k].name)
  }

  /** One column of a feature: the field and the feature's value in it. */
  datatype Cell<V> = Cell(field: Field, value: V)

  /** A feature: its attribute values, aligned with its fields. */
  datatype Feature<V> = Feature(cells: seq<Cell<V>>)

  function FieldNames<V>(feature: Feature<V>): (names: seq<string>)
    ensures |names| == |feature.cells|
    ensures forall k :: 0 <= k < |names| ==> names[k] == feature.cells[k].field.name
  {
    seq(|feature.cells|, k requires 0 <= k < |feature.cells| => feature.cells[k].field.name)
  }

  /** Position of the first cell whose field is called `name`. */
  function CellIndex<V>(cells: seq<Cell<V>>, name: string): (k: nat)
    ensures k <= |cells|
    ensures k < |cells| ==> cells[k].field.name == name
    ensures forall j :: 0 <= j < k ==> cells[j].field.name != name
  {
    if |cells| == 0 then 0
    else if cells[0].field.name == name then 0
    else 1 + CellIndex(cells[1..], name)
  }

  /** `feature[name]` for a name the feature has: the value in the first field
      with that exact name. */
  function ValueOf<V>(feature: Feature<V>, name: string): V
    requires name in FieldNames(feature)
  {
    var k := CellIndex(feature.cells, name);
    assert k < |feature.cells| by {
      var j :| 0 <= j < |feature.cells| && FieldNames(feature)[j] == name;
    }
    feature.cells[k].value
  }

  /** A Python dict as the sequence of its items in insertion order. */
  type Dict<V> = seq<(string, V)>

  predicate HasKey<V>(d: Dict<V>, key: string) {
    exists k :: 0 <= k < |d| && d[k].0 == key
  }

  predicate DistinctKeys<V>(d: Dict<V>) {
    forall j, k :: 0 <= j < k < |d| ==> d[j].0 != d[k].0
  }

  /** Position of `key` among the dict's keys, or the dict's length when absent. */
  function KeyIndex<V>(d: Dict<V>, key: string): (k: nat)
    ensures k <= |d|
    ensures k < |d| ==> d[k].0 == key
    ensures forall j :: 0 <= j < k ==> d[j].0 != key
  {
    if |d| == 0 then 0
    else if d[0].0 == key then 0
    else 1 + KeyIndex(d[1..], key)
  }

  /** `d[key] = value`: an existing key keeps its place and takes the new value,
      a new key goes to the end. */
  function DictSet<V>(d: Dict<V>, key: string, value: V): (r: Dict<V>)
    requires DistinctKeys(d)
    ensures DistinctKeys(r)
    ensures |d| <= |r|
    ensures forall x :: HasKey(r, x) <==> HasKey(d, x) || x == key
    ensures !HasKey(d, key) ==> r == d + [(key, value)]
    ensures forall k :: 0 <= k < |d| && d[k].0 != key ==> r[k] == d[k]
    ensures forall k :: 0 <= k < |r| && r[k].0 == key ==> r[k].1 == value
  {
    var k := KeyIndex(d, key);
    if k < |d| then
      var r := d[k := (key, value)];
      assert forall x :: HasKey(r, x) <==> HasKey(d, x) by {
        forall x ensures HasKey(r, x) <==> HasKey(d, x) {
          if HasKey(d, x) {
            var j :| 0 <= j < |d| && d[j].0 == x;
            assert r[j].0 == x;
          }
          if HasKey(r, x) {
            var j :| 0 <= j < |r| && r[j].0 == x;
            assert d[j].0 == x;
          }
        }
      }
      r
    else
      var r := d + [(key, value)];
      assert r[|d|].0 == key;
      assert forall x :: HasKey(d, x) ==> HasKey(r, x) by {
        forall x | HasKey(d, x) ensures HasKey(r, x) {
          var j :| 0 <= j < |d| && d[j].0 == x;
          assert r[j].0 == x;
        }
      }
      r
  }

  /** The dict comprehension of `getFeatureAttributes` over the first `n` fields. */
  function AttributesUpTo<V>(feature: Feature<V>, n: nat): (d: Dict<V>)
    requires n <= |feature.cells|
    ensures DistinctKeys(d)
    ensures forall name :: HasKey(d, name) <==> name in FieldNames(feature)[..n]
    ensures forall k :: 0 <= k < |d| ==> d[k].0 in FieldNames(feature) && d[k].1 == ValueOf(feature, d[k].0)
  {
    if n == 0 then []
    else
      var names := FieldNames(feature);
      var name := names[n - 1];
      assert names[..n] == names[..n - 1] + [name];
      var prev := AttributesUpTo(feature, n - 1);
      var d := DictSet(prev, name, ValueOf(feature, name));
      assert forall k :: 0 <= k < |d| ==> d[k].0 in names && d[k].1 == ValueOf(feature, d[k].0) by {
        forall k | 0 <= k < |d| ensures d[k].0 in names && d[k].1 == ValueOf(feature, d[k].0) {
          if k >= |prev| || prev[k].0 == name {
            assert d[k].0 == name;
          } else {
            assert d[k] == prev[k];
          }
        }
      }
      d
  }

  /** `getFeatureAttributes`: a dict from each field name of the feature to its
      value. Every field name is a key, nothing else is, no key appears twice, and
      each key maps to `feature[key]`. */
  function GetFeatureAttributes<V>(feature: Feature<V>): (d: Dict<V>)
    ensures DistinctKeys(d)
    ensures forall name :: HasKey(d, name) <==> name in FieldNames(feature)
    ensures forall k :: 0 <= k < |d| ==> d[k].0 in FieldNames(feature) && d[k].1 == ValueOf(feature, d[k].0)
  {
    assert FieldNames(feature)[..|feature.cells|] == FieldNames(feature);
    AttributesUpTo(feature, |feature.cells|)
  }

  /** The feature's (name, value) pairs of its first `n` fields, in field order. */
  function Pairs<V>(feature: Feature<V>, n: nat): (d: Dict<V>)
    requires n <= |feature.cells|
  {
    seq(n, k requires 0 <= k < n => (feature.cells[k].field.name, feature.cells[k].value))
  }

  predicate DistinctFieldNames<V>(feature: Feature<V>) {
    forall j, k :: 0 <= j < k < |feature.cells| ==> feature.cells[j].field.name != feature.cells[k].field.name
  }

  /** When the field names are distinct (the host refuses a duplicate field name),
      the attributes are exactly the feature's (name, value) pairs in field order. */
  lemma {:induction false} AttributesFollowFieldOrder<V>(feature: Feature<V>, n: nat)
    requires n <= |feature.cells|
    requires DistinctFieldNames(feature)
    ensures AttributesUpTo(feature, n) == Pairs(feature, n)
  {
    if n > 0 {
      AttributesFollowFieldOrder(feature, n - 1);
      var names := FieldNames(feature);
      var name := names[n - 1];
      var prev := AttributesUpTo(feature, n - 1);
      CellIndexOfDistinct(feature.cells, n - 1);
      var earlier := names[..n - 1];
      forall j | 0 <= j < |earlier| ensures earlier[j] != name {
        assert feature.cells[j].field.name != feature.cells[n - 1].field.name;
      }
      assert !HasKey(prev, name);
      assert AttributesUpTo(feature, n) == prev + [(name, feature.cells[n - 1].value)];
      PairsSnoc(feature, n);
    }
  }

  lemma PairsSnoc<V>(feature: Feature<V>, n: nat)
    requires 0 < n <= |feature.cells|
    ensures Pairs(feature, n) == Pairs(feature, n - 1) + [(feature.cells[n - 1].field.name, feature.cells[n - 1].value)]
  {
  }

  /** With distinct names, a field's name finds that field's own cell. */
  lemma {:induction false} CellIndexOfDistinct<V>(cells: seq<Cell<V>>, k: nat)
    requires k < |cells|
    requires forall i, j :: 0 <= i < j < |cells| ==> cells[i].field.name != cells[j].field.name
    ensures CellIndex(cells, cells[k].field.name) == k
  {
    if k > 0 {
      CellIndexOfDistinct(cells[1..], k - 1);
    }
  }
}
