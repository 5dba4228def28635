/**
 * A feature backed by a Mongo document: values are reached through paths of
 * keys into nested objects; geometries and ordinary properties live at paths
 * a mapping chooses.
 */
module MongoFeature {
  import opened Wrappers

  /** The leaf values a document holds. */
  datatype Scalar = Text(text: string) | Number(number: real) | Flag(flag: bool) | ObjectId(hex: string)

  /** A document value: a nested object (a DBObject) or a leaf. */
  datatype Value = Object(fields: map<string, Value>) | Leaf(leaf: Scalar)

  type Document = map<string, Value>

  /** The keys of a path, outermost first. */
  type Path = seq<string>

  datatype FeatureError =
    | IllegalPath(part: string)   // "Illegal path, <part> is not an object"
    | EmptyPath                   // the index error of parts.get(-1) on an empty path
    | NotAGeometry(value: Value)  // "Value <value> is not a geometry"
    | NoGeometry                  // "No geometry for feature"

  // ---------------------------------------------------------------------------
  // find
  // ---------------------------------------------------------------------------

  /**
   * `find`: the value at the last key of the path (the document itself for
   * the empty path), null as soon as a key is absent, and an error when a key
   * before the last holds a leaf.
   */
  function FindIn(doc: Document, path: Path): Result<Option<Value>, FeatureError>
    decreases |path|
  {
    if |path| == 0 then Ok(Some(Object(doc)))
    else if path[0] !in doc then Ok(None)
    else if |path| == 1 then Ok(Some(doc[path[0]]))
    else match doc[path[0]]
      case Object(inner) => FindIn(inner, path[1..])
      case Leaf(_) => Err(IllegalPath(path[0]))
  }

  /** What `find` gives for a path one key longer, from what it gives for the path. */
  lemma {:induction false} FindExtended(doc: Document, path: Path, key: string)
    ensures FindIn(doc, path + [key]) ==
              match FindIn(doc, path)
              case Err(e) => Err(e)
              case Ok(None) => Ok(None)
              case Ok(Some(Object(f))) => if key in f then Ok(Some(f[key])) else Ok(None)
              case Ok(Some(Leaf(_))) => Err(IllegalPath(path[|path| - 1]))
    decreases |path|
  {
    if |path| > 0 {
      assert (path + [key])[0] == path[0];
      assert (path + [key])[1..] == path[1..] + [key];
      if |path| > 1 && path[0] in doc && doc[path[0]].Object? {
        FindExtended(doc[path[0]].fields, path[1..], key);
      }
    } else {
      assert path + [key] == [key];
    }
  }

  // ---------------------------------------------------------------------------
  // set
  // ---------------------------------------------------------------------------

  /** A document after `set`, and the error `set` threw, if any. */
  datatype Written = Written(doc: Document, error: Option<FeatureError>)

  /**
   * `set`: walks every key but the last, creating an empty object for each
   * absent one and failing on a leaf; then puts the value under the last key.
   * The walk is not undone on failure (but see SetFailureLeavesDocument).
   */
  function SetIn(doc: Document, path: Path, val: Value): Written
    decreases |path|
  {
    if |path| == 0 then Written(doc, Some(EmptyPath))
    else if |path| == 1 then Written(doc[path[0] := val], None)
    else if path[0] !in doc then
      var inner := SetIn(map[], path[1..], val);
      Written(doc[path[0] := Object(inner.doc)], inner.error)
    else match doc[path[0]]
      case Object(fields) =>
        var inner := SetIn(fields, path[1..], val);
        Written(doc[path[0] := Object(inner.doc)], inner.error)
      case Leaf(_) => Written(doc, Some(IllegalPath(path[0])))
  }

  /** Round trip: after a successful `set`, `find` on the same path gives the value written. */
  lemma {:induction false} FindAfterSet(doc: Document, path: Path, val: Value)
    requires SetIn(doc, path, val).error.None?
    ensures FindIn(SetIn(doc, path, val).doc, path) == Ok(Some(val))
    decreases |path|
  {
    if |path| > 1 {
      var fields := if path[0] in doc then doc[path[0]].fields else map[];
      FindAfterSet(fields, path[1..], val);
    }
  }

  /** Two paths diverge when they hold different keys at some common position. */
  predicate Diverge(p: Path, q: Path) {
    exists i :: 0 <= i < |p| && i < |q| && p[i] != q[i]
  }

  /**
   * Frame: a successful `set` changes nothing that a path diverging from its
   * own reaches; in particular no other key of the object written into, and
   * no key off the path, changes.
   */
  lemma {:induction false} SetFrame(doc: Document, path: Path, val: Value, other: Path)
    requires SetIn(doc, path, val).error.None?
    requires Diverge(path, other)
    ensures FindIn(SetIn(doc, path, val).doc, other) == FindIn(doc, other)
    decreases |path|
  {
    var i :| 0 <= i < |path| && i < |other| && path[i] != other[i];
    if path[0] != other[0] {
      return;
    }
    assert i > 0 && |path| > 1 && |other| > 1;
    assert path[1..][i - 1] != other[1..][i - 1];
    var fields := if path[0] in doc then doc[path[0]].fields else map[];
    SetFrame(fields, path[1..], val, other[1..]);
  }

  /** `set` below an object it has just created never fails. */
  lemma {:induction false} SetIntoEmpty(path: Path, val: Value)
    requires |path| > 0
    ensures SetIn(map[], path, val).error.None?
    decreases |path|
  {
    if |path| > 1 {
      SetIntoEmpty(path[1..], val);
    }
  }

  /**
   * Although `set` is not written to be atomic, it can only fail before it
   * has created anything (every key below a created object is absent too),
   * so a failing `set` leaves the document as it was.
   */
  lemma {:induction false} SetFailureLeavesDocument(doc: Document, path: Path, val: Value)
    requires SetIn(doc, path, val).error.Some?
    ensures SetIn(doc, path, val).doc == doc
    decreases |path|
  {
    if |path| > 1 {
      if path[0] !in doc {
        SetIntoEmpty(path[1..], val);
      } else if doc[path[0]].Object? {
        SetFailureLeavesDocument(doc[path[0]].fields, path[1..], val);
      }
    }
  }

  predicate NullOrObject(r: Result<Option<Value>, FeatureError>) {
    r == Ok(None) || (r.Ok? && r.value.Some? && r.value.value.Object?)
  }

  /**
   * `set` succeeds exactly when the path is not empty and `find` on the path
   * of the parent is null or an object.
   */
  lemma {:induction false} SetSucceeds(doc: Document, path: Path, val: Value)
    ensures SetIn(doc, path, val).error.None? <==>
              |path| > 0 && NullOrObject(FindIn(doc, path[..|path| - 1]))
    decreases |path|
  {
    if |path| > 1 {
      var parent := path[..|path| - 1];
      assert parent[0] == path[0];
      if path[0] !in doc {
        SetIntoEmpty(path[1..], val);
      } else if doc[path[0]].Object? {
        if |path| > 2 {
          assert parent[1..] == path[1..][..|path[1..]| - 1];
        }
        SetSucceeds(doc[path[0]].fields, path[1..], val);
      }
    }
  }

  // ---------------------------------------------------------------------------
  // The mapping and the operations on top of find and set
  // ---------------------------------------------------------------------------

  /**
   * Where a feature's data lives: the geometry paths, the path of the object
   * holding the properties, and how a path is named as one string.
   */
  datatype Mapping = Mapping(geometryPaths: seq<Path>, propertyPath: Path, join: Path -> string)

  /** What `put` is given: a geometry, or any other value. */
  datatype FeatureValue<G> = Geom(geometry: G) | Data(value: Value)

  /** Index of the first path named `key`, or the number of paths when none is. */
  function FirstNamed(paths: seq<Path>, join: Path -> string, key: string): (i: nat)
    ensures i <= |paths|
    ensures i < |paths| ==> join(paths[i]) == key
    ensures forall k :: 0 <= k < i ==> join(paths[k]) != key
  {
    if |paths| == 0 then 0
    else if join(paths[0]) == key then 0
    else 1 + FirstNamed(paths[1..], join, key)
  }

  /** True when `key` names one of the geometry paths. */
  predicate NamesGeometry(m: Mapping, key: string) {
    FirstNamed(m.geometryPaths, m.join, key) < |m.geometryPaths|
  }

  /**
   * `put(key, val)`: a key naming a geometry path takes only a geometry
   * (encoded as an object) at that path; any other key is written under the
   * property path.
   */
  function PutIn<G>(doc: Document, m: Mapping, encode: G -> Document, key: string, val: FeatureValue<G>): Written {
    var dbval := if val.Geom? then Object(encode(val.geometry)) else val.value;
    var i := FirstNamed(m.geometryPaths, m.join, key);
    if i < |m.geometryPaths| then
      if val.Geom? then SetIn(doc, m.geometryPaths[i], dbval) else Written(doc, Some(NotAGeometry(val.value)))
    else SetIn(doc, m.propertyPath + [key], dbval)
  }

  /** `put(Geometry)`: the first geometry path, or an error when the mapping has none. */
  function PutGeometryIn<G>(doc: Document, m: Mapping, encode: G -> Document, g: G): Written {
    if |m.geometryPaths| > 0 then PutIn(doc, m, encode, m.join(m.geometryPaths[0]), Geom(g))
    else Written(doc, Some(NoGeometry))
  }

  /**
   * `has(key)`: true for a key naming a geometry path; otherwise whether the
   * object at the property path holds the key (an error from `find` propagates).
   */
  function Has(doc: Document, m: Mapping, key: string): Result<bool, FeatureError> {
    if NamesGeometry(m, key) then Ok(true)
    else match FindIn(doc, m.propertyPath)
      case Err(e) => Err(e)
      case Ok(Some(Object(fields))) => Ok(key in fields)
      case Ok(_) => Ok(false)
  }

  /**
   * `geometry()`: null without geometry paths, otherwise what `find` gives
   * at the first one (the GeoJSON object before its conversion).
   */
  function Geometry(doc: Document, m: Mapping): Option<Result<Option<Value>, FeatureError>> {
    if |m.geometryPaths| == 0 then None else Some(FindIn(doc, m.geometryPaths[0]))
  }

  /**
   * `id(obj)`: the text of the `_id` object id when there is one, the freshly
   * generated id otherwise; `None` when `_id` is not an object id.
   */
  function IdOf(doc: Document, generated: string): (r: Option<string>)
    ensures "_id" !in doc ==> r == Some(generated)
    ensures "_id" in doc && r.Some? ==> doc["_id"] == Leaf(ObjectId(r.value))
    ensures r.None? <==> "_id" in doc && !(doc["_id"].Leaf? && doc["_id"].leaf.ObjectId?)
  {
    if "_id" !in doc then Some(generated)
    else match doc["_id"]
      case Leaf(ObjectId(hex)) => Some(hex)
      case _ => None
  }

  /** A non-geometry value under a geometry key is refused and nothing is written. */
  lemma PutRefusesNonGeometry<G>(doc: Document, m: Mapping, encode: G -> Document, key: string, v: Value)
    requires NamesGeometry(m, key)
    ensures PutIn(doc, m, encode, key, Data(v)) == Written(doc, Some(NotAGeometry(v)))
  {
  }

  /** A geometry under a geometry key is written, encoded, at the first path of that name. */
  lemma PutGeometryValue<G>(doc: Document, m: Mapping, encode: G -> Document, key: string, g: G)
    requires NamesGeometry(m, key)
    ensures var path := m.geometryPaths[FirstNamed(m.geometryPaths, m.join, key)];
            var w := PutIn(doc, m, encode, key, Geom(g));
            && m.join(path) == key
            && w == SetIn(doc, path, Object(encode(g)))
            && (w.error.None? ==> FindIn(w.doc, path) == Ok(Some(Object(encode(g)))))
  {
    var path := m.geometryPaths[FirstNamed(m.geometryPaths, m.join, key)];
    if SetIn(doc, path, Object(encode(g))).error.None? {
      FindAfterSet(doc, path, Object(encode(g)));
    }
  }

  /**
   * Any other key is written under the property path, after which `find`
   * gives the value back and `has` reports the key.
   */
  lemma PutProperty<G>(doc: Document, m: Mapping, encode: G -> Document, key: string, val: FeatureValue<G>)
    requires !NamesGeometry(m, key)
    ensures var dbval := if val.Geom? then Object(encode(val.geometry)) else val.value;
            var w := PutIn(doc, m, encode, key, val);
            && w == SetIn(doc, m.propertyPath + [key], dbval)
            && (w.error.None? ==> FindIn(w.doc, m.propertyPath + [key]) == Ok(Some(dbval)))
            && (w.error.None? ==> Has(w.doc, m, key) == Ok(true))
  {
    var dbval := if val.Geom? then Object(encode(val.geometry)) else val.value;
    var path := m.propertyPath + [key];
    var w := SetIn(doc, path, dbval);
    if w.error.None? {
      FindAfterSet(doc, path, dbval);
      FindExtended(w.doc, m.propertyPath, key);
    }
  }

  /** Without geometry paths `put(Geometry)` fails and `geometry()` is null. */
  lemma NoGeometryPaths<G>(doc: Document, m: Mapping, encode: G -> Document, g: G)
    requires |m.geometryPaths| == 0
    ensures PutGeometryIn(doc, m, encode, g) == Written(doc, Some(NoGeometry))
    ensures Geometry(doc, m).None?
  {
  }

  /** `geometry()` gives back, encoded, what a successful `put(Geometry)` wrote. */
  lemma GeometryAfterPut<G>(doc: Document, m: Mapping, encode: G -> Document, g: G)
    requires |m.geometryPaths| > 0
    requires PutGeometryIn(doc, m, encode, g).error.None?
    ensures Geometry(PutGeometryIn(doc, m, encode, g).doc, m) == Some(Ok(Some(Object(encode(g)))))
  {
    var key := m.join(m.geometryPaths[0]);
    assert FirstNamed(m.geometryPaths, m.join, key) == 0;
    FindAfterSet(doc, m.geometryPaths[0], Object(encode(g)));
  }

  /** `has` is true for every geometry key and, otherwise, exactly for the keys of the property object. */
  lemma HasKeys(doc: Document, m: Mapping, key: string)
    ensures NamesGeometry(m, key) ==> Has(doc, m, key) == Ok(true)
    ensures !NamesGeometry(m, key) && FindIn(doc, m.propertyPath).Ok? ==>
              (Has(doc, m, key) == Ok(true) <==> FindIn(doc, m.propertyPath + [key]).Ok? && FindIn(doc, m.propertyPath + [key]).value.Some?)
  {
    FindExtended(doc, m.propertyPath, key);
  }

  // ---------------------------------------------------------------------------
  // The feature object
  // ---------------------------------------------------------------------------

  /** One step of the walk in `set`: the object walked through and the key descended by. */
  type Frame = (Document, string)

  /** The whole document rebuilt from a walk that went through `frames` and stands at `cursor`. */
  function Plug(frames: seq<Frame>, cursor: Document): Document
    decreases |frames|
  {
    if |frames| == 0 then cursor
    else
      var (parent, key) := frames[|frames| - 1];
      Plug(frames[..|frames| - 1], parent[key := Object(cursor)])
  }

  function PlugWritten(frames: seq<Frame>, w: Written): Written {
    Written(Plug(frames, w.doc), w.error)
  }

  /** A feature over a Mongo document; `encode` is the GeoJSON encoding of a geometry. */
  class Feature<G> {
    const id: string
    var obj: Document
    const mapping: Mapping
    const encode: G -> Document

    constructor (obj: Document, mapping: Mapping, encode: G -> Document, generatedId: string)
      requires IdOf(obj, generatedId).Some?
      ensures id == IdOf(obj, generatedId).value
      ensures this.obj == obj && this.mapping == mapping && this.encode == encode
    {
      id := IdOf(obj, generatedId).value;
      this.obj := obj;
      this.mapping := mapping;
      this.encode := encode;
    }

    /** `find`, walking the path with a cursor object. */
    method Find(path: Path) returns (r: Result<Option<Value>, FeatureError>)
      ensures r == FindIn(obj, path)
    {
      var cursor := obj;
      var next := Object(obj);
      var i := 0;
      while i < |path|
        invariant 0 <= i <= |path|
        invariant i < |path| ==> FindIn(obj, path) == FindIn(cursor, path[i..])
        invariant i == |path| ==> FindIn(obj, path) == Ok(Some(next))
      {
        var part := path[i];
        if part !in cursor {
          return Ok(None);
        }
        next := cursor[part];
        if i < |path| - 1 {
          if !next.Object? {
            return Err(IllegalPath(part));
          }
          assert path[i..][1..] == path[i + 1..];
          cursor := next.fields;
        }
        i := i + 1;
      }
      return Ok(Some(next));
    }

    /**
     * `set`, walking all keys but the last with a cursor object and creating
     * absent ones; the frames record the objects walked through so that the
     * writes below them show in the whole document.
     */
    method Set(path: Path, val: Value) returns (error: Option<FeatureError>)
      modifies this
      ensures obj == SetIn(old(obj), path, val).doc
      ensures error == SetIn(old(obj), path, val).error
    {
      var cursor := obj;
      var frames: seq<Frame> := [];
      var i := 0;
      while i < |path| - 1
        invariant 0 <= i && (|path| == 0 || i <= |path| - 1)
        invariant obj == old(obj)
        invariant |path| > 0 ==> SetIn(obj, path, val) == PlugWritten(frames, SetIn(cursor, path[i..], val))
      {
        var part := path[i];
        assert path[i..][0] == part && path[i..][1..] == path[i + 1..];
        ghost var walked := cursor;
        if part !in cursor {
          cursor := cursor[part := Object(map[])];
        }
        var next := cursor[part];
        if !next.Object? {
          obj := Plug(frames, cursor);
          return Some(IllegalPath(part));
        }
        ghost var inner := SetIn(next.fields, path[i + 1..], val);
        assert cursor[part := Object(inner.doc)] == walked[part := Object(inner.doc)];
        assert (frames + [(cursor, part)])[..|frames|] == frames;
        frames := frames + [(cursor, part)];
        cursor := next.fields;
        i := i + 1;
      }
      if |path| == 0 {
        return Some(EmptyPath);
      }
      assert path[i..] == [path[|path| - 1]];
      cursor := cursor[path[|path| - 1] := val];
      obj := Plug(frames, cursor);
      return None;
    }

    /** `put(key, val)`, trying the geometry paths in order. */
    method Put(key: string, val: FeatureValue<G>) returns (error: Option<FeatureError>)
      modifies this
      ensures obj == PutIn(old(obj), mapping, encode, key, val).doc
      ensures error == PutIn(old(obj), mapping, encode, key, val).error
    {
      var dbval := if val.Geom? then Object(encode(val.geometry)) else val.value;
      var paths := mapping.geometryPaths;
      for i := 0 to |paths|
        invariant forall k :: 0 <= k < i ==> mapping.join(paths[k]) != key
      {
        if mapping.join(paths[i]) == key {
          assert FirstNamed(paths, mapping.join, key) == i;
          if val.Geom? {
            error := Set(paths[i], dbval);
            return;
          } else {
            return Some(NotAGeometry(val.value));
          }
        }
      }
      assert FirstNamed(paths, mapping.join, key) == |paths|;
      error := Set(mapping.propertyPath + [key], dbval);
    }

    /** `put(Geometry)`. */
    method PutGeometry(g: G) returns (error: Option<FeatureError>)
      modifies this
      ensures obj == PutGeometryIn(old(obj), mapping, encode, g).doc
      ensures error == PutGeometryIn(old(obj), mapping, encode, g).error
    {
      if |mapping.geometryPaths| > 0 {
        error := Put(mapping.join(mapping.geometryPaths[0]), Geom(g));
        return;
      }
      return Some(NoGeometry);
    }
  }
}
