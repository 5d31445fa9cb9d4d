/**
  * The Wavefront OBJ reader of `lib-raytracing/src/scenes/objloader.rs`. Each line is split
  * on single spaces; a `v` line appends one vertex, an `f` line adds the fan of triangles of
  * one face, and every other line is skipped. A panic of the Rust code (an index out of range,
  * a failed `expect`, a subtraction below zero) ends the load with an `Err`.
  *
  * `str::parse` is not part of this model: the two parsers are parameters that return `None`
  * where the Rust parse fails.
  */
module ObjLoader {
  import opened Wrappers
  import opened Vectors
  import opened Materials
  import opened Triangles

  /** Why a load panics. */
  datatype LoadError =
    | IndexOutOfRange   // `parts[i]` or `vertices[i]` past the end
    | ParseFailed       // `expect("failed parsing")` on a coordinate
    | Underflow         // `window[i] - 1` with a face index of 0

  /** The colour every face triangle is given: `Lambertian` green. */
  const FaceMaterial: Material := Lambertian(Vec3(0.0, 1.0, 0.0))

  // ---------------------------------------------------------------- splitting a line

  /** The pieces joined back with one space between each two. */
  function Join(parts: seq<string>): string
    requires 1 <= |parts|
  {
    if |parts| == 1 then parts[0] else parts[0] + " " + Join(parts[1..])
  }

  /**
    * `split(" ")`: the pieces between single spaces, empty ones included, so a line always
    * has at least one piece and joining them restores it.
    */
  function Split(line: string): (r: seq<string>)
    ensures 1 <= |r|
    ensures forall k :: 0 <= k < |r| ==> ' ' !in r[k]
    ensures Join(r) == line
  {
    if |line| == 0 then [""]
    else
      var rest := Split(line[1..]);
      if line[0] == ' ' then
        assert line == " " + Join(rest);
        [""] + rest
      else
        assert line == [line[0]] + line[1..];
        if |rest| == 1 then [[line[0]] + rest[0]]
        else
          assert Join(rest) == rest[0] + " " + Join(rest[1..]);
          [[line[0]] + rest[0]] + rest[1..]
  }

  /** Splitting undoes joining pieces that hold no space. */
  lemma {:induction false} SplitJoin(parts: seq<string>)
    requires 1 <= |parts| && forall k :: 0 <= k < |parts| ==> ' ' !in parts[k]
    ensures Split(Join(parts)) == parts
  {
    if |parts| == 1 {
      SplitWord(parts[0]);
    } else {
      SplitJoin(parts[1..]);
      SplitWordThenSpace(parts[0], Join(parts[1..]));
      assert parts == [parts[0]] + parts[1..];
    }
  }

  /** A piece without spaces splits into itself. */
  lemma {:induction false} SplitWord(word: string)
    requires ' ' !in word
    ensures Split(word) == [word]
  {
    if |word| > 0 {
      SplitWord(word[1..]);
      assert word == [word[0]] + word[1..];
    }
  }

  /** A piece without spaces, a space and the rest: the piece comes off first. */
  lemma {:induction false} SplitWordThenSpace(word: string, rest: string)
    requires ' ' !in word
    ensures Split(word + " " + rest) == [word] + Split(rest)
  {
    if |word| == 0 {
      assert word + " " + rest == " " + rest;
      assert (" " + rest)[1..] == rest;
    } else {
      var line := word + " " + rest;
      SplitWordThenSpace(word[1..], rest);
      assert line[0] == word[0] && line[1..] == word[1..] + " " + rest;
      var tail := Split(line[1..]);
      assert tail == [word[1..]] + Split(rest);
      assert [word[0]] + tail[0] == word;
      assert Split(line) == [[word[0]] + tail[0]] + tail[1..];
    }
  }

  // ---------------------------------------------------------------- `v` lines

  /** `parts[i].parse().expect(..)` for one coordinate. */
  function Coordinate(parseReal: string -> Option<real>, parts: seq<string>, i: nat): (r: Result<real, LoadError>)
    ensures r.Ok? <==> i < |parts| && parseReal(parts[i]).Some?
    ensures r.Ok? ==> r.value == parseReal(parts[i]).value
    ensures i >= |parts| ==> r == Err(IndexOutOfRange)
  {
    if i >= |parts| then Err(IndexOutOfRange)
    else if parseReal(parts[i]).None? then Err(ParseFailed)
    else Ok(parseReal(parts[i]).value)
  }

  /**
    * `parse_vec`: the vertex from pieces 1 to 3, in that order. A line with a number of pieces
    * other than 4 is only logged: further pieces are ignored and missing ones panic.
    */
  function ParseVec(parseReal: string -> Option<real>, parts: seq<string>): (r: Result<Vec3, LoadError>)
  {
    match Coordinate(parseReal, parts, 1)
    case Err(e) => Err(e)
    case Ok(x) =>
      match Coordinate(parseReal, parts, 2)
      case Err(e) => Err(e)
      case Ok(y) =>
        match Coordinate(parseReal, parts, 3)
        case Err(e) => Err(e)
        case Ok(z) => Ok(Vec3(x, y, z))
  }

  /**
    * A `v` line yields a vertex exactly when it has at least four pieces and pieces 1 to 3
    * parse; the vertex is made of those three numbers, whatever follows them.
    */
  lemma ParseVecOutcome(parseReal: string -> Option<real>, parts: seq<string>)
    ensures ParseVec(parseReal, parts).Ok? <==>
              4 <= |parts| && parseReal(parts[1]).Some? && parseReal(parts[2]).Some? && parseReal(parts[3]).Some?
    ensures ParseVec(parseReal, parts).Ok? ==>
              ParseVec(parseReal, parts).value ==
              Vec3(parseReal(parts[1]).value, parseReal(parts[2]).value, parseReal(parts[3]).value)
    ensures |parts| < 2 ==> ParseVec(parseReal, parts) == Err(IndexOutOfRange)
    ensures 4 <= |parts| ==> ParseVec(parseReal, parts) == ParseVec(parseReal, parts[..4])
  {
    if 4 <= |parts| {
      var head := parts[..4];
      assert head[1] == parts[1] && head[2] == parts[2] && head[3] == parts[3];
    }
  }

  // ---------------------------------------------------------------- `f` lines

  /** The face's vertex numbers: pieces 1 onwards, a piece that does not parse becoming 0. */
  function FaceIndices(parseIndex: string -> Option<nat>, parts: seq<string>): (r: seq<nat>)
    requires 1 <= |parts|
    ensures |r| == |parts| - 1
    ensures forall k :: 0 <= k < |r| ==> parseIndex(parts[k + 1]).None? ==> r[k] == 0
  {
    seq(|parts| - 1, k requires 0 <= k < |parts| - 1 =>
      match parseIndex(parts[k + 1])
      case Some(index) => index
      case None => 0)
  }

  /** `vertices[index - 1]`, a 1-based reference. */
  function Reference(vertices: seq<Vec3>, index: nat): (r: Result<Vec3, LoadError>)
    ensures r.Ok? <==> 1 <= index <= |vertices|
    ensures r.Ok? ==> r.value == vertices[index - 1]
  {
    if index == 0 then Err(Underflow)
    else if index - 1 < |vertices| then Ok(vertices[index - 1])
    else Err(IndexOutOfRange)
  }

  /** Every 1-based index from position `from` on refers to a vertex. */
  predicate ReferencesFrom(indices: seq<nat>, vertexCount: nat, from: nat)
  {
    forall k :: from <= k < |indices| ==> 1 <= indices[k] <= vertexCount
  }

  /**
    * The triangles of the windows `(indices[k], indices[k + 1])` for `k >= from`, each with
    * the fixed `root` corner, added in order; the first bad reference panics.
    */
  function Fan(root: Vec3, indices: seq<nat>, vertices: seq<Vec3>, from: nat): (r: Result<seq<Triangle<Material>>, LoadError>)
    requires 1 <= from
    decreases |indices| - from
    ensures r.Ok? <==> from + 1 >= |indices| || ReferencesFrom(indices, |vertices|, from)
    ensures r.Ok? ==> |r.value| == if from + 1 >= |indices| then 0 else |indices| - from - 1
    ensures r.Ok? ==> forall k :: 0 <= k < |r.value| ==>
              r.value[k] == Triangle(root, vertices[indices[from + k] - 1], vertices[indices[from + k + 1] - 1], FaceMaterial)
  {
    if from + 1 >= |indices| then Ok([])
    else
      match Reference(vertices, indices[from])
      case Err(e) => Err(e)
      case Ok(b) =>
        match Reference(vertices, indices[from + 1])
        case Err(e) => Err(e)
        case Ok(c) =>
          match Fan(root, indices, vertices, from + 1)
          case Err(e) => Err(e)
          case Ok(rest) => Ok([Triangle(root, b, c, FaceMaterial)] + rest)
  }

  /**
    * `parse_face`: the root corner is `vertices[indices[0]]`, taken WITHOUT the `- 1` of the
    * other references; then one triangle per window of two consecutive indices, skipping the
    * first window.
    */
  function ParseFace(parseIndex: string -> Option<nat>, parts: seq<string>, vertices: seq<Vec3>): (r: Result<seq<Triangle<Material>>, LoadError>)
    requires 1 <= |parts|
    ensures var indices := FaceIndices(parseIndex, parts);
            r.Ok? <==> 1 <= |indices| && indices[0] < |vertices| &&
                       (|indices| < 3 || ReferencesFrom(indices, |vertices|, 1))
    ensures var indices := FaceIndices(parseIndex, parts);
            r.Ok? ==> |r.value| == if |indices| < 3 then 0 else |indices| - 2
    ensures var indices := FaceIndices(parseIndex, parts);
            r.Ok? ==> forall k :: 0 <= k < |r.value| ==>
              r.value[k] == Triangle(vertices[indices[0]], vertices[indices[k + 1] - 1],
                                     vertices[indices[k + 2] - 1], FaceMaterial)
  {
    var indices := FaceIndices(parseIndex, parts);
    if |indices| == 0 || indices[0] >= |vertices| then Err(IndexOutOfRange)
    else Fan(vertices[indices[0]], indices, vertices, 1)
  }

  // ---------------------------------------------------------------- whole files

  /** What `load_file` has built so far: the vertex list and the scene's triangles. */
  datatype ObjState = ObjState(vertices: seq<Vec3>, scene: seq<Triangle<Material>>)

  /**
    * One line of the file: dispatch on the first piece. A `v` line appends exactly one vertex,
    * an `f` line appends its triangles and leaves the vertices alone, any other line changes
    * nothing.
    */
  function Step(parseReal: string -> Option<real>, parseIndex: string -> Option<nat>,
                state: ObjState, line: string): (r: Result<ObjState, LoadError>)
    ensures Split(line)[0] == "v" ==>
              (r.Ok? <==> ParseVec(parseReal, Split(line)).Ok?) &&
              (r.Ok? ==> r.value == ObjState(state.vertices + [ParseVec(parseReal, Split(line)).value], state.scene))
    ensures Split(line)[0] == "f" ==>
              (r.Ok? <==> ParseFace(parseIndex, Split(line), state.vertices).Ok?) &&
              (r.Ok? ==> r.value == ObjState(state.vertices,
                                             state.scene + ParseFace(parseIndex, Split(line), state.vertices).value))
    ensures Split(line)[0] != "v" && Split(line)[0] != "f" ==> r == Ok(state)
  {
    var parts := Split(line);
    if parts[0] == "v" then
      match ParseVec(parseReal, parts)
      case Err(e) => Err(e)
      case Ok(v) => Ok(ObjState(state.vertices + [v], state.scene))
    else if parts[0] == "f" then
      match ParseFace(parseIndex, parts, state.vertices)
      case Err(e) => Err(e)
      case Ok(triangles) => Ok(ObjState(state.vertices, state.scene + triangles))
    else Ok(state)
  }

  /**
    * The state after the given lines, from an empty one; a line the reader could not read
    * (`None`) is skipped, and the first panic ends the load.
    */
  function Load(parseReal: string -> Option<real>, parseIndex: string -> Option<nat>,
                lines: seq<Option<string>>): Result<ObjState, LoadError>
  {
    if |lines| == 0 then Ok(ObjState([], []))
    else
      match Load(parseReal, parseIndex, lines[..|lines| - 1])
      case Err(e) => Err(e)
      case Ok(state) =>
        match lines[|lines| - 1]
        case None => Ok(state)
        case Some(line) => Step(parseReal, parseIndex, state, line)
  }

  /**
    * `load_file` over the lines of a file, `None` when the file cannot be opened (the load
    * then logs and returns an empty scene).
    */
  method LoadFile(parseReal: string -> Option<real>, parseIndex: string -> Option<nat>,
                  file: Option<seq<Option<string>>>) returns (r: Result<seq<Triangle<Material>>, LoadError>)
    ensures file.None? ==> r == Ok([])
    ensures file.Some? ==> r.Ok? == Load(parseReal, parseIndex, file.value).Ok?
    ensures file.Some? && r.Ok? ==> r.value == Load(parseReal, parseIndex, file.value).value.scene
  {
    if file.None? {
      return Ok([]);
    }
    var lines := file.value;
    var vertices: seq<Vec3> := [];
    var scene: seq<Triangle<Material>> := [];
    var i := 0;
    while i < |lines|
      invariant 0 <= i <= |lines|
      invariant Load(parseReal, parseIndex, lines[..i]) == Ok(ObjState(vertices, scene))
    {
      assert lines[..i + 1][..i] == lines[..i];
      if lines[i].Some? {
        var parts := Split(lines[i].value);
        if parts[0] == "v" {
          var vertex := ParseVec(parseReal, parts);
          if vertex.Err? {
            LoadStops(parseReal, parseIndex, lines, i + 1);
            return Err(vertex.error);
          }
          vertices := vertices + [vertex.value];
        } else if parts[0] == "f" {
          var triangles := ParseFace(parseIndex, parts, vertices);
          if triangles.Err? {
            LoadStops(parseReal, parseIndex, lines, i + 1);
            return Err(triangles.error);
          }
          scene := scene + triangles.value;
        }
      }
      i := i + 1;
    }
    assert lines[..i] == lines;
    return Ok(scene);
  }

  /** Once a prefix of the lines panics, the whole load does. */
  lemma {:induction false} LoadStops(parseReal: string -> Option<real>, parseIndex: string -> Option<nat>,
                                     lines: seq<Option<string>>, n: nat)
    requires n <= |lines| && Load(parseReal, parseIndex, lines[..n]).Err?
    ensures Load(parseReal, parseIndex, lines).Err?
    decreases |lines| - n
  {
    if n < |lines| {
      assert lines[..n + 1][..n] == lines[..n];
      LoadStops(parseReal, parseIndex, lines, n + 1);
    } else {
      assert lines[..n] == lines;
    }
  }

  /**
    * Loading more lines only ever extends the vertex list and the scene: what an earlier
    * prefix built stays at the front, in the same order.
    */
  lemma {:induction false} LoadGrows(parseReal: string -> Option<real>, parseIndex: string -> Option<nat>,
                                     lines: seq<Option<string>>, n: nat)
    requires n <= |lines| && Load(parseReal, parseIndex, lines).Ok?
    ensures Load(parseReal, parseIndex, lines[..n]).Ok?
    ensures var before := Load(parseReal, parseIndex, lines[..n]).value;
            var after := Load(parseReal, parseIndex, lines).value;
            before.vertices <= after.vertices && before.scene <= after.scene
    decreases |lines| - n
  {
    if n == |lines| {
      assert lines[..n] == lines;
    } else {
      var prefix := lines[..|lines| - 1];
      assert prefix[..n] == lines[..n];
      LoadGrows(parseReal, parseIndex, prefix, n);
    }
  }

  /** Every corner of every loaded triangle is a vertex of the file. */
  predicate CornersAreVertices(state: ObjState)
  {
    forall k :: 0 <= k < |state.scene| ==>
      state.scene[k].a in state.vertices && state.scene[k].b in state.vertices && state.scene[k].c in state.vertices
  }

  /**
    * A face only references vertices from `v` lines before it, so every triangle of a
    * successful load has its three corners among the loaded vertices.
    */
  lemma {:induction false} LoadedCornersAreVertices(parseReal: string -> Option<real>, parseIndex: string -> Option<nat>,
                                                    lines: seq<Option<string>>)
    requires Load(parseReal, parseIndex, lines).Ok?
    ensures CornersAreVertices(Load(parseReal, parseIndex, lines).value)
  {
    if |lines| > 0 {
      var prefix := lines[..|lines| - 1];
      LoadedCornersAreVertices(parseReal, parseIndex, prefix);
      var state := Load(parseReal, parseIndex, prefix).value;
      if lines[|lines| - 1].Some? {
        StepKeepsCorners(parseReal, parseIndex, state, lines[|lines| - 1].value);
      }
    }
  }

  /** One line keeps every triangle's corners among the vertices. */
  lemma StepKeepsCorners(parseReal: string -> Option<real>, parseIndex: string -> Option<nat>,
                         state: ObjState, line: string)
    requires CornersAreVertices(state)
    requires Step(parseReal, parseIndex, state, line).Ok?
    ensures CornersAreVertices(Step(parseReal, parseIndex, state, line).value)
  {
    var parts := Split(line);
    var next := Step(parseReal, parseIndex, state, line).value;
    if parts[0] == "v" {
      forall k | 0 <= k < |next.scene|
        ensures next.scene[k].a in next.vertices && next.scene[k].b in next.vertices && next.scene[k].c in next.vertices
      {
        assert next.scene[k] == state.scene[k];
      }
    } else if parts[0] == "f" {
      var triangles := ParseFace(parseIndex, parts, state.vertices).value;
      var indices := FaceIndices(parseIndex, parts);
      forall k | 0 <= k < |next.scene|
        ensures next.scene[k].a in next.vertices && next.scene[k].b in next.vertices && next.scene[k].c in next.vertices
      {
        if k >= |state.scene| {
          var j := k - |state.scene|;
          assert next.scene[k] == triangles[j];
          assert 1 <= indices[j + 1] <= |state.vertices| && 1 <= indices[j + 2] <= |state.vertices|;
        }
      }
    }
  }
}
