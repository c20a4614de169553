/**
 * The embedder: a feature-extraction pipeline loaded at most once per
 * process, whose flat output buffer is sliced into 384-wide vectors, and the
 * JSON text form of a vector kept in the database.
 *
 * The runtime is abstract: loading either yields a pipeline or fails
 * (`None`), and running a pipeline on a batch of texts yields its flat
 * output buffer. Numbers are an abstract type `N`, printed and parsed by
 * caller-supplied functions.
 */
module Embedder {
  import opened Common

  /** Width of one embedding. */
  const Dims: nat := 384

  /** A loaded pipeline, known by an opaque handle. */
  datatype Pipeline = Pipeline(handle: nat)

  /** The module-level load state: the pipeline, whether loading was tried, whether it succeeded. */
  class Loader {
    var pipe: Option<Pipeline>
    var loadAttempted: bool
    var available: bool

    /** Available only after a successful attempt, and then a pipeline is held. */
    ghost predicate Valid()
      reads this
    {
      && (available ==> loadAttempted && pipe.Some?)
      && (!loadAttempted ==> pipe.None?)
    }

    /** What `getPipeline` hands out in the current state. */
    function Current(): Option<Pipeline>
      reads this
    {
      if available then pipe else None
    }

    constructor ()
      ensures Valid()
      ensures pipe == None && !loadAttempted && !available
    {
      pipe := None;
      loadAttempted := false;
      available := false;
    }

    /**
     * Returns the pipeline, loading it on the first call only: `load` is the
     * outcome of that one attempt and is ignored afterwards.
     */
    method GetPipeline(load: Option<Pipeline>) returns (p: Option<Pipeline>)
      requires Valid()
      modifies this
      ensures Valid()
      ensures loadAttempted
      ensures old(loadAttempted) ==> pipe == old(pipe) && available == old(available) && p == old(Current())
      ensures !old(loadAttempted) ==> available == load.Some? && p == load
                                      && pipe == (if load.Some? then load else old(pipe))
      ensures p == Current()
    {
      if loadAttempted {
        return if available then pipe else None;
      }
      loadAttempted := true;
      if load.Some? {
        pipe := load;
        available := true;
      } else {
        available := false;
      }
      p := if available then pipe else None;
    }

    /** `isEmbedderAvailable`: whether getPipeline hands out a pipeline. */
    method IsEmbedderAvailable(load: Option<Pipeline>) returns (b: bool)
      requires Valid()
      modifies this
      ensures Valid()
      ensures b <==> Current().Some?
      ensures loadAttempted
      ensures old(loadAttempted) ==> b == old(available) && pipe == old(pipe) && available == old(available)
      ensures !old(loadAttempted) ==> b == load.Some? && available == load.Some?
                                      && pipe == (if load.Some? then load else old(pipe))
    {
      var p := GetPipeline(load);
      b := p.Some?;
    }

    /**
     * One vector per text. No text means no pipeline access at all; without a
     * pipeline every vector is empty; otherwise vector i is the i-th
     * 384-wide window of the pipeline's flat output.
     */
    method Embed<N>(texts: seq<string>, load: Option<Pipeline>, run: (Pipeline, seq<string>) -> seq<N>)
      returns (vecs: seq<seq<N>>)
      requires Valid()
      modifies this
      ensures Valid()
      ensures |vecs| == |texts|
      ensures texts == [] ==> pipe == old(pipe) && loadAttempted == old(loadAttempted) && available == old(available)
      ensures texts != [] && Current().None? ==> forall i :: 0 <= i < |vecs| ==> vecs[i] == []
      ensures texts != [] && Current().Some? ==> vecs == Windows(run(Current().value, texts), |texts|)
      ensures texts != [] ==> loadAttempted
      ensures texts != [] && old(loadAttempted) ==> pipe == old(pipe) && available == old(available)
      ensures texts != [] && !old(loadAttempted) ==>
                available == load.Some? && pipe == (if load.Some? then load else old(pipe))
    {
      if |texts| == 0 {
        return [];
      }
      var p := GetPipeline(load);
      if p.None? {
        return seq(|texts|, i => []);
      }
      var data := run(p.value, texts);
      vecs := Windows(data, |texts|);
    }
  }

  /** `data.slice(start, end)` for 0 <= start <= end: clamped to the buffer. */
  function Slice<N>(data: seq<N>, start: nat, end: nat): (r: seq<N>)
    requires start <= end
    ensures |r| <= end - start
  {
    var hi := if end <= |data| then end else |data|;
    var lo := if start <= hi then start else hi;
    data[lo..hi]
  }

  /** The first n windows of Dims elements. */
  function Windows<N>(data: seq<N>, n: nat): (r: seq<seq<N>>)
    ensures |r| == n
  {
    seq(n, i requires 0 <= i < n => Slice(data, i * Dims, (i + 1) * Dims))
  }

  function Flatten<N>(vs: seq<seq<N>>): seq<N>
  {
    if vs == [] then [] else Flatten(vs[..|vs| - 1]) + vs[|vs| - 1]
  }

  /**
   * When the buffer holds n full windows, each vector is exactly its window,
   * of width Dims, and the vectors laid end to end give the buffer back.
   */
  lemma {:induction false} WindowsCover<N>(data: seq<N>, n: nat)
    requires |data| == n * Dims
    ensures forall i :: 0 <= i < n ==> |Windows(data, n)[i]| == Dims
                                       && Windows(data, n)[i] == data[i * Dims..(i + 1) * Dims]
    ensures Flatten(Windows(data, n)) == data
  {
    if n > 0 {
      var init := data[..(n - 1) * Dims];
      WindowsCover(init, n - 1);
      var w, wi := Windows(data, n), Windows(init, n - 1);
      forall i | 0 <= i < n - 1 ensures w[i] == wi[i] {
        assert (i + 1) * Dims <= (n - 1) * Dims;
      }
      assert w[..n - 1] == wi;
      assert w[n - 1] == data[(n - 1) * Dims..];
      assert data == init + data[(n - 1) * Dims..];
    }
  }

  /** A short buffer yields empty vectors past its end, never an error. */
  lemma WindowsPastEnd<N>(data: seq<N>, n: nat, i: nat)
    requires i < n && |data| <= i * Dims
    ensures Windows(data, n)[i] == []
  {
  }

  // ---------------------------------------------------------------------------
  // serializeEmbedding / deserializeEmbedding

  /**
   * A printer/parser pair for numbers: parsing a printed number gives it back;
   * no printed number is empty or contains a comma or bracket. N stands for the
   * finite numbers only: `JSON.stringify` writes NaN and Infinity as `null`,
   * which does not parse back to a number, so those values are outside N.
   */
  ghost predicate NumberText<N(!new)>(show: N -> string, read: string -> Option<N>)
  {
    forall x :: read(show(x)) == Some(x) && show(x) != [] && ',' !in show(x) && '[' !in show(x) && ']' !in show(x)
  }

  function Shown<N>(v: seq<N>, show: N -> string): (r: seq<string>)
    ensures |r| == |v|
  {
    seq(|v|, i requires 0 <= i < |v| => show(v[i]))
  }

  /** `JSON.stringify(vec)`: the numbers between brackets, separated by commas. */
  function Serialize<N>(v: seq<N>, show: N -> string): string
  {
    "[" + Join(Shown(v, show), ",") + "]"
  }

  /** The pieces of s between commas. */
  function Split(s: string): (r: seq<string>)
    ensures |r| >= 1
  {
    if s == [] then [""]
    else if s[0] == ',' then [""] + Split(s[1..])
    else var rest := Split(s[1..]); [[s[0]] + rest[0]] + rest[1..]
  }

  function ReadAll<N>(pieces: seq<string>, read: string -> Option<N>): Option<seq<N>>
  {
    if pieces == [] then Some([])
    else match (read(pieces[0]), ReadAll(pieces[1..], read))
      case (Some(x), Some(xs)) => Some([x] + xs)
      case _ => None
  }

  /** `JSON.parse(s) as number[]`; None where the parse throws. */
  function Deserialize<N>(s: string, read: string -> Option<N>): Option<seq<N>>
  {
    if |s| < 2 || s[0] != '[' || s[|s| - 1] != ']' then None
    else
      var inner := s[1..|s| - 1];
      if inner == "" then Some([]) else ReadAll(Split(inner), read)
  }

  lemma {:induction false} SplitPiece(a: string, rest: string)
    requires ',' !in a
    ensures Split(a + "," + rest) == [a] + Split(rest)
    ensures Split(a) == [a]
  {
    if a != [] {
      assert (a + "," + rest)[1..] == a[1..] + "," + rest;
      SplitPiece(a[1..], rest);
      assert [a[0]] + a[1..] == a;
    } else {
      assert a + "," + rest == "," + rest;
      assert ("," + rest)[1..] == rest;
    }
  }

  /** Splitting a comma-join of comma-free pieces gives the pieces back. */
  lemma {:induction false} SplitJoin(xs: seq<string>)
    requires xs != []
    requires forall i :: 0 <= i < |xs| ==> ',' !in xs[i]
    ensures Split(Join(xs, ",")) == xs
  {
    if |xs| == 1 {
      SplitPiece(xs[0], "");
    } else {
      SplitJoin(xs[1..]);
      SplitPiece(xs[0], Join(xs[1..], ","));
    }
  }

  lemma {:induction false} ReadShown<N(!new)>(v: seq<N>, show: N -> string, read: string -> Option<N>)
    requires NumberText(show, read)
    ensures ReadAll(Shown(v, show), read) == Some(v)
  {
    if v != [] {
      assert Shown(v, show)[1..] == Shown(v[1..], show);
      ReadShown(v[1..], show, read);
      assert read(Shown(v, show)[0]) == Some(v[0]);
      assert v == [v[0]] + v[1..];
    }
  }

  /** Deserializing a serialized vector gives the vector back. */
  lemma RoundTrip<N(!new)>(v: seq<N>, show: N -> string, read: string -> Option<N>)
    requires NumberText(show, read)
    ensures Deserialize(Serialize(v, show), read) == Some(v)
  {
    var s := Serialize(v, show);
    var body := Join(Shown(v, show), ",");
    assert s[1..|s| - 1] == body;
    if v == [] {
    } else {
      JoinLength(Shown(v, show), ",");
      assert |body| > 0 by {
        assert |Shown(v, show)[0]| > 0;
        TotalLengthPositive(Shown(v, show));
      }
      SplitJoin(Shown(v, show));
      ReadShown(v, show, read);
    }
  }

  lemma TotalLengthPositive(xs: seq<string>)
    requires xs != [] && |xs[0]| > 0
    ensures TotalLength(xs) > 0
  {
  }
}
