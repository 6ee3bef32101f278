/** Similarity scores between memories (`src/components/graph/similarity.ts`):
    cosine similarity of embeddings, the parsing of stored embeddings and
    timestamps, the metadata overlap score, and their weighted combination. */
module Similarity {
  import opened Base
  import opened Text
  import opened GraphTypes
  import Seqs
  import Constants

  // ---------------------------------------------------------------------------
  // Vectors

  /** Why `cosineSimilarity` throws. */
  datatype CosineError = LengthMismatch | NonNumeric

  predicate AllNumbers(v: seq<Num>) {
    forall i :: 0 <= i < |v| ==> v[i].Number?
  }

  /** The real components of a vector that holds no NaN. */
  function Values(v: seq<Num>): (r: seq<real>)
    requires AllNumbers(v)
    ensures |r| == |v|
    ensures forall i :: 0 <= i < |v| ==> r[i] == v[i].value
  {
    seq(|v|, i requires 0 <= i < |v| => v[i].value)
  }

  /** A vector of reals as JavaScript numbers. */
  function Numbers(xs: seq<real>): (v: seq<Num>)
    ensures |v| == |xs|
    ensures forall i :: 0 <= i < |xs| ==> v[i] == Number(xs[i])
  {
    seq(|xs|, i requires 0 <= i < |xs| => Number(xs[i]))
  }

  lemma ValuesNumbers(xs: seq<real>)
    ensures AllNumbers(Numbers(xs)) && Values(Numbers(xs)) == xs
  {
  }

  function Negate(xs: seq<real>): (ys: seq<real>)
    ensures |ys| == |xs|
    ensures forall i :: 0 <= i < |xs| ==> ys[i] == -xs[i]
  {
    seq(|xs|, i requires 0 <= i < |xs| => -xs[i])
  }

  /** A product of two reals. Products go through this function so that the solver
      treats a square like any other product. */
  function Prod(x: real, y: real): real
  {
    x * y
  }

  /** The dot product, summed from the first component as the source's loop does. */
  function Dot(a: seq<real>, b: seq<real>): real
    requires |a| == |b|
  {
    if |a| == 0 then 0.0 else Dot(a[..|a| - 1], b[..|b| - 1]) + Prod(a[|a| - 1], b[|b| - 1])
  }

  lemma DotSnoc(a: seq<real>, b: seq<real>, x: real, y: real)
    requires |a| == |b|
    ensures Dot(a + [x], b + [y]) == Dot(a, b) + Prod(x, y)
  {
    assert (a + [x])[..|a|] == a;
    assert (b + [y])[..|b|] == b;
  }

  lemma {:induction false} DotSymmetric(a: seq<real>, b: seq<real>)
    requires |a| == |b|
    ensures Dot(a, b) == Dot(b, a)
  {
    if |a| > 0 {
      DotSymmetric(a[..|a| - 1], b[..|b| - 1]);
      ProdFacts(a[|a| - 1], b[|b| - 1]);
    }
  }

  lemma MulPos(a: real, b: real)
    requires a > 0.0 && b > 0.0
    ensures Prod(a, b) > 0.0
  {
  }

  lemma ProdFacts(a: real, b: real)
    ensures Prod(-a, -b) == Prod(a, b)
    ensures Prod(a, b) == Prod(b, a)
    ensures Prod(a, -b) == -Prod(a, b)
  {
  }

  lemma MulGrow(a: real, b: real, c: real)
    requires a > b && c > 0.0
    ensures Prod(a, c) > Prod(b, c)
  {
    MulPos(a - b, c);
    assert Prod(a - b, c) == Prod(a, c) - Prod(b, c);
  }

  lemma NonNegativeProd(a: real, b: real)
    requires a >= 0.0 && b >= 0.0
    ensures Prod(a, b) >= 0.0
  {
    if a > 0.0 && b > 0.0 {
      MulPos(a, b);
    }
  }

  lemma ProdSquare(p: real, q: real)
    ensures Prod(Prod(p, q), Prod(p, q)) == Prod(p, p) * Prod(q, q)
  {
    assert (p * q) * (p * q) == (p * p) * (q * q);
  }

  /** A square is non-negative, and positive unless its root is zero. */
  lemma Square(x: real)
    ensures Prod(x, x) >= 0.0
    ensures x != 0.0 ==> Prod(x, x) > 0.0
  {
    if x < 0.0 {
      MulPos(-x, -x);
      ProdFacts(x, x);
    } else if x > 0.0 {
      MulPos(x, x);
    }
  }

  lemma {:induction false} DotSelfNonNegative(a: seq<real>)
    ensures Dot(a, a) >= 0.0
  {
    if |a| > 0 {
      DotSelfNonNegative(a[..|a| - 1]);
      Square(a[|a| - 1]);
    }
  }

  /** The squared magnitude is zero exactly for the zero vector. */
  lemma {:induction false} DotSelfZero(a: seq<real>)
    ensures Dot(a, a) == 0.0 <==> forall i :: 0 <= i < |a| ==> a[i] == 0.0
  {
    if |a| > 0 {
      var n := |a| - 1;
      DotSelfZero(a[..n]);
      DotSelfNonNegative(a[..n]);
      Square(a[n]);
      if a[n] != 0.0 {
        assert Dot(a, a) > 0.0;
      } else if exists i :: 0 <= i < n && a[i] != 0.0 {
        var i :| 0 <= i < n && a[i] != 0.0;
        assert a[..n][i] != 0.0;
        assert Dot(a[..n], a[..n]) > 0.0;
      } else {
        assert forall i :: 0 <= i < n ==> a[..n][i] == 0.0;
        assert Prod(a[n], a[n]) == 0.0;
      }
    }
  }

  lemma {:induction false} DotNegateRight(a: seq<real>, b: seq<real>)
    requires |a| == |b|
    ensures Dot(a, Negate(b)) == -Dot(a, b)
  {
    if |a| > 0 {
      var n := |a| - 1;
      assert Negate(b)[..n] == Negate(b[..n]);
      DotNegateRight(a[..n], b[..n]);
      ProdFacts(a[n], b[n]);
    }
  }

  lemma {:induction false} DotNegateBoth(a: seq<real>, b: seq<real>)
    requires |a| == |b|
    ensures Dot(Negate(a), Negate(b)) == Dot(a, b)
  {
    if |a| > 0 {
      var n := |a| - 1;
      assert Negate(a)[..n] == Negate(a[..n]);
      assert Negate(b)[..n] == Negate(b[..n]);
      DotNegateBoth(a[..n], b[..n]);
      ProdFacts(a[n], b[n]);
    }
  }

  /** The identity behind the Cauchy–Schwarz step: `A` times the cross term is a sum of squares. */
  lemma CrossIdentity(A: real, B: real, D: real, x: real, y: real)
    ensures A * (A * Prod(y, y) + B * Prod(x, x) - 2.0 * D * Prod(x, y))
      == Prod(A * y - D * x, A * y - D * x) + (A * B - Prod(D, D)) * Prod(x, x)
  {
    assert (A * y - D * x) * (A * y - D * x) == (A * y) * (A * y) - 2.0 * (A * y) * (D * x) + (D * x) * (D * x);
    assert (A * y) * (A * y) == A * A * (y * y);
    assert (D * x) * (D * x) == D * D * (x * x);
    assert 2.0 * (A * y) * (D * x) == A * 2.0 * D * (x * y);
  }

  lemma CrossNonNegative(A: real, B: real, D: real, x: real, y: real)
    requires A >= 0.0 && B >= 0.0 && Prod(D, D) <= A * B
    ensures A * Prod(y, y) + B * Prod(x, x) - 2.0 * D * Prod(x, y) >= 0.0
  {
    var cross := A * Prod(y, y) + B * Prod(x, x) - 2.0 * D * Prod(x, y);
    Square(x);
    Square(y);
    if A == 0.0 {
      Square(D);
      assert A * B == 0.0;
      assert D == 0.0;
      assert cross == B * Prod(x, x);
    } else {
      var u := A * y - D * x;
      Square(u);
      var g := A * B - Prod(D, D);
      assert g * Prod(x, x) >= 0.0;
      CrossIdentity(A, B, D, x, y);
      assert A * cross >= 0.0;
    }
  }

  /** One step of the Cauchy–Schwarz induction. */
  lemma CauchySchwarzStep(A: real, B: real, D: real, x: real, y: real)
    requires A >= 0.0 && B >= 0.0 && Prod(D, D) <= A * B
    ensures Prod(D + Prod(x, y), D + Prod(x, y)) <= (A + Prod(x, x)) * (B + Prod(y, y))
  {
    CrossNonNegative(A, B, D, x, y);
    assert (A + x * x) * (B + y * y) == A * B + A * (y * y) + B * (x * x) + (x * x) * (y * y);
    assert (D + x * y) * (D + x * y) == D * D + 2.0 * D * (x * y) + (x * y) * (x * y);
    assert (x * x) * (y * y) == (x * y) * (x * y);
  }

  /** Cauchy–Schwarz: the squared dot product is at most the product of the squared magnitudes. */
  lemma {:induction false} CauchySchwarz(a: seq<real>, b: seq<real>)
    requires |a| == |b|
    ensures Prod(Dot(a, b), Dot(a, b)) <= Dot(a, a) * Dot(b, b)
  {
    if |a| > 0 {
      var n := |a| - 1;
      CauchySchwarz(a[..n], b[..n]);
      DotSelfNonNegative(a[..n]);
      DotSelfNonNegative(b[..n]);
      CauchySchwarzStep(Dot(a[..n], a[..n]), Dot(b[..n], b[..n]), Dot(a[..n], b[..n]), a[n], b[n]);
    }
  }

  /** A number whose square is at most the square of a positive number lies within it. */
  lemma AbsBound(d: real, m: real)
    requires m > 0.0 && Prod(d, d) <= Prod(m, m)
    ensures -m <= d <= m
  {
    if d > m {
      MulGrow(d, m, d);
      MulGrow(d, m, m);
      ProdFacts(d, m);
    } else if d < -m {
      MulGrow(-d, m, -d);
      MulGrow(-d, m, m);
      ProdFacts(d, d);
      ProdFacts(-d, m);
    }
  }

  lemma DivSelf(a: real)
    requires a != 0.0
    ensures a / a == 1.0
    ensures (-a) / a == -1.0
  {
  }

  lemma DivBound(d: real, m: real)
    requires m > 0.0 && -m <= d <= m
    ensures -1.0 <= d / m <= 1.0
  {
    assert (d / m) * m == d;
  }

  // ---------------------------------------------------------------------------
  // cosineSimilarity

  /** `Math.sqrt(magnitudeA) * Math.sqrt(magnitudeB)`. */
  function MagnitudeProduct(x: seq<real>, y: seq<real>, sqrt: real -> real): real
  {
    Prod(sqrt(Dot(x, x)), sqrt(Dot(y, y)))
  }

  /** `cosineSimilarity`: throws on a length mismatch, then on any NaN component;
      otherwise the dot product over the product of the magnitudes, or 0 when that
      product is 0. */
  function CosineSimilarity(a: seq<Num>, b: seq<Num>, sqrt: real -> real): (r: Result<real, CosineError>)
    ensures r == Failure(LengthMismatch) <==> |a| != |b|
    ensures r == Failure(NonNumeric) <==> |a| == |b| && !(AllNumbers(a) && AllNumbers(b))
  {
    if |a| != |b| then Failure(LengthMismatch)
    else if !(AllNumbers(a) && AllNumbers(b)) then Failure(NonNumeric)
    else
      var x, y := Values(a), Values(b);
      var magnitude := MagnitudeProduct(x, y, sqrt);
      if magnitude == 0.0 then Success(0.0) else Success(Dot(x, y) / magnitude)
  }

  lemma ValuesSnoc(v: seq<Num>, i: nat)
    requires i < |v| && AllNumbers(v[..i + 1])
    ensures AllNumbers(v[..i]) && Values(v[..i + 1]) == Values(v[..i]) + [v[i].value]
  {
    assert v[..i + 1][..i] == v[..i];
  }

  /** One more pair of components extends the three running sums by their products. */
  lemma SumsSnoc(a: seq<Num>, b: seq<Num>, i: nat)
    requires i < |a| == |b| && AllNumbers(a[..i]) && AllNumbers(b[..i]) && a[i].Number? && b[i].Number?
    ensures AllNumbers(a[..i + 1]) && AllNumbers(b[..i + 1])
    ensures Dot(Values(a[..i + 1]), Values(b[..i + 1])) == Dot(Values(a[..i]), Values(b[..i])) + Prod(a[i].value, b[i].value)
    ensures Dot(Values(a[..i + 1]), Values(a[..i + 1])) == Dot(Values(a[..i]), Values(a[..i])) + Prod(a[i].value, a[i].value)
    ensures Dot(Values(b[..i + 1]), Values(b[..i + 1])) == Dot(Values(b[..i]), Values(b[..i])) + Prod(b[i].value, b[i].value)
  {
    var x, y := a[i].value, b[i].value;
    assert AllNumbers(a[..i + 1]) && AllNumbers(b[..i + 1]);
    ValuesSnoc(a, i);
    ValuesSnoc(b, i);
    DotSnoc(Values(a[..i]), Values(b[..i]), x, y);
    DotSnoc(Values(a[..i]), Values(a[..i]), x, x);
    DotSnoc(Values(b[..i]), Values(b[..i]), y, y);
  }

  /** The source's single loop accumulating the dot product and both squared magnitudes,
      throwing at the first NaN component. */
  method ComputeCosine(a: seq<Num>, b: seq<Num>, sqrt: real -> real) returns (r: Result<real, CosineError>)
    ensures r == CosineSimilarity(a, b, sqrt)
  {
    if |a| != |b| {
      return Failure(LengthMismatch);
    }
    var dot, magA, magB := 0.0, 0.0, 0.0;
    var i := 0;
    while i < |a|
      invariant 0 <= i <= |a|
      invariant AllNumbers(a[..i]) && AllNumbers(b[..i])
      invariant dot == Dot(Values(a[..i]), Values(b[..i]))
      invariant magA == Dot(Values(a[..i]), Values(a[..i]))
      invariant magB == Dot(Values(b[..i]), Values(b[..i]))
    {
      if !a[i].Number? || !b[i].Number? {
        return Failure(NonNumeric);
      }
      var x, y := a[i].value, b[i].value;
      SumsSnoc(a, b, i);
      dot := dot + Prod(x, y);
      magA := magA + Prod(x, x);
      magB := magB + Prod(y, y);
      i := i + 1;
    }
    assert a[..i] == a && b[..i] == b;
    assert AllNumbers(a) && AllNumbers(b);
    assert dot == Dot(Values(a), Values(b));
    assert magA == Dot(Values(a), Values(a)) && magB == Dot(Values(b), Values(b));
    var magnitude := sqrt(magA) * sqrt(magB);
    assert magnitude == MagnitudeProduct(Values(a), Values(b), sqrt);
    if magnitude == 0.0 {
      return Success(0.0);
    }
    return Success(dot / magnitude);
  }

  /** With a true square root the cosine lies in [-1, 1], as the source's comment
      ("from [-1, 1] to [0, 1]") presumes. */
  lemma CosineBounded(a: seq<Num>, b: seq<Num>, sqrt: real -> real)
    requires IsSqrt(sqrt)
    ensures CosineSimilarity(a, b, sqrt).Success? ==>
      -1.0 <= CosineSimilarity(a, b, sqrt).value <= 1.0
  {
    if |a| == |b| && AllNumbers(a) && AllNumbers(b) {
      var x, y := Values(a), Values(b);
      var A, B, D := Dot(x, x), Dot(y, y), Dot(x, y);
      DotSelfNonNegative(x);
      DotSelfNonNegative(y);
      CauchySchwarz(x, y);
      var sa, sb := sqrt(A), sqrt(B);
      var m := MagnitudeProduct(x, y, sqrt);
      assert m == Prod(sa, sb);
      if m != 0.0 {
        assert Prod(sa, sa) == A && Prod(sb, sb) == B;
        ProdSquare(sa, sb);
        assert Prod(m, m) == A * B;
        NonNegativeProd(sa, sb);
        assert m > 0.0;
        AbsBound(D, m);
        DivBound(D, m);
      }
    }
  }

  lemma {:induction false} CosineSymmetric(a: seq<Num>, b: seq<Num>, sqrt: real -> real)
    ensures CosineSimilarity(a, b, sqrt).Success? <==> CosineSimilarity(b, a, sqrt).Success?
    ensures CosineSimilarity(a, b, sqrt).Success? ==>
      CosineSimilarity(a, b, sqrt).value == CosineSimilarity(b, a, sqrt).value
  {
    if |a| == |b| && AllNumbers(a) && AllNumbers(b) {
      DotSymmetric(Values(a), Values(b));
    }
  }

  /** A vector with a non-zero component has cosine 1 with itself. */
  lemma CosineSelf(xs: seq<real>, sqrt: real -> real)
    requires IsSqrt(sqrt)
    requires exists i :: 0 <= i < |xs| && xs[i] != 0.0
    ensures CosineSimilarity(Numbers(xs), Numbers(xs), sqrt) == Success(1.0)
  {
    ValuesNumbers(xs);
    DotSelfZero(xs);
    DotSelfNonNegative(xs);
    var A := Dot(xs, xs);
    assert A > 0.0;
    var s := sqrt(A);
    assert s * s == A;
    assert MagnitudeProduct(xs, xs, sqrt) == A;
    DivSelf(A);
  }

  /** A vector with a non-zero component has cosine -1 with its negation. */
  lemma CosineOpposite(xs: seq<real>, sqrt: real -> real)
    requires IsSqrt(sqrt)
    requires exists i :: 0 <= i < |xs| && xs[i] != 0.0
    ensures CosineSimilarity(Numbers(xs), Numbers(Negate(xs)), sqrt) == Success(-1.0)
  {
    ValuesNumbers(xs);
    ValuesNumbers(Negate(xs));
    DotSelfZero(xs);
    DotSelfNonNegative(xs);
    DotNegateRight(xs, xs);
    DotNegateBoth(xs, xs);
    var A := Dot(xs, xs);
    assert A > 0.0;
    var s := sqrt(A);
    assert s * s == A;
    assert Dot(Negate(xs), Negate(xs)) == A;
    assert Dot(xs, Negate(xs)) == -A;
    assert MagnitudeProduct(xs, Negate(xs), sqrt) == A;
    DivSelf(A);
  }

  lemma {:induction false} DotZeroLeft(xs: seq<real>, ys: seq<real>)
    requires |xs| == |ys|
    requires forall i :: 0 <= i < |xs| ==> xs[i] == 0.0
    ensures Dot(xs, ys) == 0.0
  {
    if |xs| > 0 {
      var n := |xs| - 1;
      assert forall i :: 0 <= i < n ==> xs[..n][i] == 0.0;
      DotZeroLeft(xs[..n], ys[..n]);
    }
  }

  /** The zero vector has cosine 0 with every vector of its length. */
  lemma CosineZeroVector(xs: seq<real>, ys: seq<real>, sqrt: real -> real)
    requires |xs| == |ys|
    requires forall i :: 0 <= i < |xs| ==> xs[i] == 0.0
    ensures CosineSimilarity(Numbers(xs), Numbers(ys), sqrt) == Success(0.0)
  {
    ValuesNumbers(xs);
    ValuesNumbers(ys);
    DotZeroLeft(xs, ys);
  }

  // ---------------------------------------------------------------------------
  // parseEmbeddingString

  /** `replace(/^\[|\]$/g, '')`: drops one leading `[` and one trailing `]`. */
  function StripBrackets(s: string): (r: string)
    ensures |s| >= 2 && s[0] == '[' && s[|s| - 1] == ']' ==> r == s[1..|s| - 1]
    ensures (|s| == 0 || s[0] != '[') && (|s| == 0 || s[|s| - 1] != ']') ==> r == s
    ensures |s| >= 1 && s[0] == '[' && s[|s| - 1] != ']' ==> r == s[1..]
    ensures |s| >= 1 && s[0] != '[' && s[|s| - 1] == ']' ==> r == s[..|s| - 1]
  {
    var a := if |s| > 0 && s[0] == '[' then s[1..] else s;
    if |a| > 0 && a[|a| - 1] == ']' then a[..|a| - 1] else a
  }

  /** Parses every trimmed piece with `parseFloat`; `None` when any piece is NaN. */
  function ParsePieces(pieces: seq<string>, parseFloat: string -> Option<real>): (r: Option<seq<Num>>)
    ensures r.None? <==> exists k :: 0 <= k < |pieces| && parseFloat(Trim(pieces[k])).None?
    ensures r.Some? ==> |r.value| == |pieces|
    ensures r.Some? ==> forall k :: 0 <= k < |pieces| ==>
      r.value[k] == Number(parseFloat(Trim(pieces[k])).value)
  {
    if forall k :: 0 <= k < |pieces| ==> parseFloat(Trim(pieces[k])).Some? then
      Some(seq(|pieces|, k requires 0 <= k < |pieces| && parseFloat(Trim(pieces[k])).Some? =>
        Number(parseFloat(Trim(pieces[k])).value)))
    else None
  }

  /** `parseEmbeddingString`: a missing or empty embedding gives `None`; an array is
      returned as it is; a text is stripped of its brackets, split at commas and each
      trimmed piece parsed, giving `None` if any piece is not a number. */
  function ParseEmbedding(e: Embedding, parseFloat: string -> Option<real>): (r: Option<seq<Num>>)
    ensures e.NoEmbedding? ==> r.None?
    ensures e.Components? ==> r == Some(e.values)
    ensures e.Encoded? && e.text == "" ==> r.None?
    ensures e.Encoded? && e.text != "" ==> r == ParsePieces(Split(StripBrackets(e.text), ','), parseFloat)
  {
    match e
    case NoEmbedding => None
    case Components(values) => Some(values)
    case Encoded(text) =>
      if text == "" then None else ParsePieces(Split(StripBrackets(text), ','), parseFloat)
  }

  /** Parsing the renderings of some numbers gives the numbers back. */
  lemma ParsePiecesRendered(xs: seq<real>, render: real -> string, parseFloat: string -> Option<real>)
    requires forall k :: 0 <= k < |xs| ==> parseFloat(Trim(render(xs[k]))) == Some(xs[k])
    ensures ParsePieces(Seqs.MapSeq(xs, render), parseFloat) == Some(Numbers(xs))
  {
    var pieces := Seqs.MapSeq(xs, render);
    forall k | 0 <= k < |pieces| ensures parseFloat(Trim(pieces[k])) == Some(xs[k]) {
      assert pieces[k] == render(xs[k]);
    }
    ParsePiecesAll(pieces, parseFloat, xs);
  }

  /** Pieces that each parse to a number parse to those numbers. */
  lemma ParsePiecesAll(pieces: seq<string>, parseFloat: string -> Option<real>, ys: seq<real>)
    requires |ys| == |pieces|
    requires forall k :: 0 <= k < |pieces| ==> parseFloat(Trim(pieces[k])) == Some(ys[k])
    ensures ParsePieces(pieces, parseFloat) == Some(Numbers(ys))
  {
    assert forall k :: 0 <= k < |pieces| ==> parseFloat(Trim(pieces[k])).Some?;
    var r := ParsePieces(pieces, parseFloat);
    assert r.value == Numbers(ys);
  }

  /** Brackets around a text are stripped; a text without them is left alone. */
  lemma StripBracketsCases(body: string)
    requires |body| > 0 && body[0] != '[' && body[|body| - 1] != ']'
    ensures StripBrackets("[" + body + "]") == body
    ensures StripBrackets(body) == body
  {
    var text := "[" + body + "]";
    assert text[1..|text| - 1] == body;
  }

  /** Writing numbers as `[x1,x2,...]` with any rendering that `parseFloat` reads back
      and that contains no comma or bracket, and parsing the text, gives the numbers back;
      so does the bare `x1,x2,...` form. */
  lemma ParseEmbeddingRoundTrip(xs: seq<real>, render: real -> string, parseFloat: string -> Option<real>)
    requires |xs| >= 1
    requires forall k :: 0 <= k < |xs| ==> parseFloat(Trim(render(xs[k]))) == Some(xs[k])
    requires forall k :: 0 <= k < |xs| ==>
      |render(xs[k])| > 0 && ',' !in render(xs[k]) && '[' !in render(xs[k]) && ']' !in render(xs[k])
    ensures var body := Join(Seqs.MapSeq(xs, render), ',');
      && ParseEmbedding(Encoded("[" + body + "]"), parseFloat) == Some(Numbers(xs))
      && ParseEmbedding(Encoded(body), parseFloat) == Some(Numbers(xs))
  {
    var pieces := Seqs.MapSeq(xs, render);
    var body := Join(pieces, ',');
    SplitJoin(pieces, ',');
    JoinFirst(pieces, ',');
    JoinLast(pieces, ',');
    assert pieces[0][0] in pieces[0];
    var last := pieces[|pieces| - 1];
    assert last[|last| - 1] in last;
    StripBracketsCases(body);
    ParsePiecesRendered(xs, render, parseFloat);
  }

  // ---------------------------------------------------------------------------
  // calculateSentenceSimilarity

  /** `calculateSentenceSimilarity`: the cosine of the two parsed embeddings, floored
      at 0; 0 when either embedding does not parse or the cosine throws. */
  function SentenceSimilarity(a: VectorMemory, b: VectorMemory, rt: Runtime): (r: real)
    ensures r >= 0.0
    ensures ParseEmbedding(a.embedding, rt.parseFloat).None? ==> r == 0.0
    ensures ParseEmbedding(b.embedding, rt.parseFloat).None? ==> r == 0.0
  {
    var ea := ParseEmbedding(a.embedding, rt.parseFloat);
    var eb := ParseEmbedding(b.embedding, rt.parseFloat);
    if ea.None? || eb.None? then 0.0
    else
      match CosineSimilarity(ea.value, eb.value, rt.sqrt)
      case Failure(_) => 0.0
      case Success(c) => Max(0.0, c)
  }

  /** When both embeddings parse, a cosine that throws (on a length mismatch or a NaN
      component) is caught and gives 0, and a computed cosine is floored at 0: the
      semantic similarity is positive exactly when the cosine is computed and positive. */
  lemma SentenceSimilarityCosine(a: VectorMemory, b: VectorMemory, rt: Runtime)
    requires ParseEmbedding(a.embedding, rt.parseFloat).Some? && ParseEmbedding(b.embedding, rt.parseFloat).Some?
    ensures var ea, eb := ParseEmbedding(a.embedding, rt.parseFloat).value, ParseEmbedding(b.embedding, rt.parseFloat).value;
      && (|ea| != |eb| ==> SentenceSimilarity(a, b, rt) == 0.0)
      && (!(AllNumbers(ea) && AllNumbers(eb)) ==> SentenceSimilarity(a, b, rt) == 0.0)
      && (CosineSimilarity(ea, eb, rt.sqrt).Success? ==>
            SentenceSimilarity(a, b, rt) == Max(0.0, CosineSimilarity(ea, eb, rt.sqrt).value))
      && (SentenceSimilarity(a, b, rt) > 0.0 <==>
            CosineSimilarity(ea, eb, rt.sqrt).Success? && CosineSimilarity(ea, eb, rt.sqrt).value > 0.0)
  {
  }

  /** With a true square root the semantic similarity lies in [0, 1]. */
  lemma SentenceSimilarityBounded(a: VectorMemory, b: VectorMemory, rt: Runtime)
    requires IsSqrt(rt.sqrt)
    ensures 0.0 <= SentenceSimilarity(a, b, rt) <= 1.0
  {
    var ea := ParseEmbedding(a.embedding, rt.parseFloat);
    var eb := ParseEmbedding(b.embedding, rt.parseFloat);
    if ea.Some? && eb.Some? {
      CosineBounded(ea.value, eb.value, rt.sqrt);
    }
  }

  lemma SentenceSimilaritySymmetric(a: VectorMemory, b: VectorMemory, rt: Runtime)
    ensures SentenceSimilarity(a, b, rt) == SentenceSimilarity(b, a, rt)
  {
    var ea := ParseEmbedding(a.embedding, rt.parseFloat);
    var eb := ParseEmbedding(b.embedding, rt.parseFloat);
    if ea.Some? && eb.Some? {
      CosineSymmetric(ea.value, eb.value, rt.sqrt);
    }
  }

  /** A memory whose embedding is a vector with a non-zero component is fully similar to itself. */
  lemma SentenceSimilaritySelf(a: VectorMemory, xs: seq<real>, rt: Runtime)
    requires IsSqrt(rt.sqrt)
    requires a.embedding == Components(Numbers(xs))
    requires exists i :: 0 <= i < |xs| && xs[i] != 0.0
    ensures SentenceSimilarity(a, a, rt) == 1.0
  {
    CosineSelf(xs, rt.sqrt);
  }

  // ---------------------------------------------------------------------------
  // parseTimestamp

  /** `minutes * 60 + seconds`. */
  function ClockSeconds(minutes: int, seconds: int): int
  {
    minutes * 60 + seconds
  }

  /** The part of a timestamp before its first `-`, trimmed. */
  function CleanTime(timestamp: string): string
  {
    Trim(Split(timestamp, '-')[0])
  }

  /** `parseTimestamp`: the part before the first `-`, trimmed, must be `m:s`; the result
      is `60 m + s` read with `parseInt`, which is NaN when either side has no leading
      digits; `None` for an empty clean part or any other number of colons. */
  function ParseTimestamp(timestamp: string): (r: Option<Num>)
    ensures r.Some? <==> CleanTime(timestamp) != "" && CountChar(CleanTime(timestamp), ':') == 1
    ensures r.Some? && r.value.Number? ==>
      var parts := Split(CleanTime(timestamp), ':');
      && ParseInt10(parts[0]).Some? && ParseInt10(parts[1]).Some?
      && r.value.value == ClockSeconds(ParseInt10(parts[0]).value, ParseInt10(parts[1]).value) as real
  {
    var cleanTime := CleanTime(timestamp);
    if cleanTime == "" then None
    else
      var parts := Split(cleanTime, ':');
      if |parts| == 2 then
        var minutes := ParseInt10(parts[0]);
        var seconds := ParseInt10(parts[1]);
        if minutes.Some? && seconds.Some? then Some(Number(ClockSeconds(minutes.value, seconds.value) as real))
        else Some(NaN)
      else None
  }

  lemma TrimUnpadded(s: string)
    requires |s| > 0 && !IsJsWhitespace(s[0]) && !IsJsWhitespace(s[|s| - 1])
    ensures Trim(s) == s
  {
  }

  lemma NoCharInDigits(s: string, c: char)
    requires forall i :: 0 <= i < |s| ==> IsDigit(s[i])
    requires !IsDigit(c)
    ensures c !in s
  {
  }

  function Clock(m: nat, s: nat): string
  {
    ShowNat(m) + ":" + ShowNat(s)
  }

  lemma ClockNoDash(m: nat, s: nat)
    ensures '-' !in Clock(m, s)
  {
    var ms, ss := ShowNat(m), ShowNat(s);
    var clock := Clock(m, s);
    NoCharInDigits(ms, '-');
    NoCharInDigits(ss, '-');
    forall i | 0 <= i < |clock| ensures clock[i] != '-' {
      if i < |ms| {
        assert clock[i] == ms[i];
      } else if i > |ms| {
        assert clock[i] == ss[i - |ms| - 1];
      }
    }
  }

  lemma ClockTrimmed(m: nat, s: nat)
    ensures Trim(Clock(m, s)) == Clock(m, s)
  {
    var ms, ss := ShowNat(m), ShowNat(s);
    var clock := Clock(m, s);
    assert clock[0] == ms[0];
    assert clock[|clock| - 1] == ss[|ss| - 1];
    TrimUnpadded(clock);
  }

  lemma ClockSplit(m: nat, s: nat)
    ensures Split(Clock(m, s), ':') == [ShowNat(m), ShowNat(s)]
  {
    var ms, ss := ShowNat(m), ShowNat(s);
    NoCharInDigits(ms, ':');
    NoCharInDigits(ss, ':');
    SplitAfterPiece(ms, ss, ':');
    SplitPiece(ss, ':');
  }

  /** The clean part of `m:s`, or of `m:s-rest`, is `m:s`. */
  lemma CleanTimeOfClock(clock: string, rest: Option<string>)
    requires '-' !in clock && Trim(clock) == clock
    ensures CleanTime(if rest.Some? then clock + "-" + rest.value else clock) == clock
  {
    if rest.Some? {
      SplitAfterPiece(clock, rest.value, '-');
    } else {
      SplitPiece(clock, '-');
    }
  }

  /** `m:s`, optionally followed by `-` and an end time, reads back as `60 m + s` seconds. */
  lemma ParseTimestampRoundTrip(m: nat, s: nat, rest: Option<string>)
    ensures var timestamp := if rest.Some? then Clock(m, s) + "-" + rest.value else Clock(m, s);
      ParseTimestamp(timestamp) == Some(Number(ClockSeconds(m, s) as real))
  {
    var clock := Clock(m, s);
    var timestamp := if rest.Some? then clock + "-" + rest.value else clock;
    ClockNoDash(m, s);
    ClockTrimmed(m, s);
    ClockSplit(m, s);
    CleanTimeOfClock(clock, rest);
    ParseIntShowNat(m);
    ParseIntShowNat(s);
    ParseTimestampOfParts(timestamp, ShowNat(m), ShowNat(s), m, s);
  }

  lemma ParseTimestampOfParts(timestamp: string, a: string, b: string, x: int, y: int)
    requires CleanTime(timestamp) != ""
    requires Split(CleanTime(timestamp), ':') == [a, b]
    requires ParseInt10(a) == Some(x) && ParseInt10(b) == Some(y)
    ensures ParseTimestamp(timestamp) == Some(Number(ClockSeconds(x, y) as real))
  {
  }

  /** A bare number of seconds has no colon and is not a timestamp. */
  lemma ParseTimestampSecondsOnly(s: nat)
    ensures ParseTimestamp(ShowNat(s)) == None
  {
    var ss := ShowNat(s);
    NoCharInDigits(ss, '-');
    NoCharInDigits(ss, ':');
    SplitPiece(ss, '-');
    assert !IsJsWhitespace(ss[0]);
    assert !IsJsWhitespace(ss[|ss| - 1]);
    TrimUnpadded(ss);
    SplitPiece(ss, ':');
  }

  // ---------------------------------------------------------------------------
  // calculateMetadataSimilarity

  /** The seconds a timestamp stands for, when it parses to a number. */
  function Seconds(t: string): (r: Option<real>)
    ensures r.Some? <==> ParseTimestamp(t).Some? && ParseTimestamp(t).value.Number?
    ensures r.Some? ==> r.value == ParseTimestamp(t).value.value
  {
    match ParseTimestamp(t)
    case Some(Number(x)) => Some(x)
    case _ => None
  }

  /** The distance between two points on the time line. */
  function Distance(x: real, y: real): real {
    if x <= y then y - x else x - y
  }

  /** Both timestamps parse to numbers that are less than `limit` seconds apart. */
  predicate WithinSeconds(ta: string, tb: string, limit: real) {
    Seconds(ta).Some? && Seconds(tb).Some? && Distance(Seconds(ta).value, Seconds(tb).value) < limit
  }

  /** The timestamp credit: 1 within 30 seconds, 0.5 within 120, else 0; a timestamp
      that does not parse, or parses to NaN, earns nothing. */
  function TimestampCredit(ta: string, tb: string): (c: real)
    ensures c == 0.0 || c == 0.5 || c == 1.0
  {
    var a := ParseTimestamp(ta);
    var b := ParseTimestamp(tb);
    if a.None? || b.None? || a.value.NaN? || b.value.NaN? then 0.0
    else
      var diff := a.value.value - b.value.value;
      var gap := if diff < 0.0 then -diff else diff;
      if gap < 30.0 then 1.0 else if gap < 120.0 then 0.5 else 0.0
  }

  /** Full credit exactly within 30 seconds, half credit from 30 up to 120 seconds, and
      none beyond or when either timestamp is not a number. */
  lemma TimestampCreditValue(ta: string, tb: string)
    ensures TimestampCredit(ta, tb) == 1.0 <==> WithinSeconds(ta, tb, 30.0)
    ensures TimestampCredit(ta, tb) == 0.5 <==> WithinSeconds(ta, tb, 120.0) && !WithinSeconds(ta, tb, 30.0)
    ensures TimestampCredit(ta, tb) == 0.0 <==> !WithinSeconds(ta, tb, 120.0)
  {
    hide ParseTimestamp;
  }

  /** Which of the three checks apply to a pair of metadata records. */
  predicate CategoryChecked(ma: Metadata, mb: Metadata) { Truthy(ma.category) && Truthy(mb.category) }
  predicate EmotionChecked(ma: Metadata, mb: Metadata) { Truthy(ma.emotion) && Truthy(mb.emotion) }
  predicate TimestampChecked(ma: Metadata, mb: Metadata) { Truthy(ma.timestamp) && Truthy(mb.timestamp) }

  /** The weight of the checks that apply: 3 for category, 2 for emotion, 1 for timestamp. */
  function TotalChecks(ma: Metadata, mb: Metadata): real
  {
    (if CategoryChecked(ma, mb) then 3.0 else 0.0)
    + (if EmotionChecked(ma, mb) then 2.0 else 0.0)
    + (if TimestampChecked(ma, mb) then 1.0 else 0.0)
  }

  /** Every check that applies is fully met: equal categories, equal emotions, and
      timestamps less than 30 seconds apart. */
  predicate FullMatch(ma: Metadata, mb: Metadata) {
    && (CategoryChecked(ma, mb) ==> ma.category == mb.category)
    && (EmotionChecked(ma, mb) ==> ma.emotion == mb.emotion)
    && (TimestampChecked(ma, mb) ==> WithinSeconds(ma.timestamp.value, mb.timestamp.value, 30.0))
  }

  /** No check that applies earns anything: different categories, different emotions,
      and timestamps that are not both numbers less than 120 seconds apart. */
  predicate NoMatch(ma: Metadata, mb: Metadata) {
    && (CategoryChecked(ma, mb) ==> ma.category != mb.category)
    && (EmotionChecked(ma, mb) ==> ma.emotion != mb.emotion)
    && (TimestampChecked(ma, mb) ==> !WithinSeconds(ma.timestamp.value, mb.timestamp.value, 120.0))
  }

  /** The score earned: full weight for an equal category or emotion, the timestamp credit. */
  function MatchScore(ma: Metadata, mb: Metadata): (score: real)
    ensures 0.0 <= score <= TotalChecks(ma, mb)
  {
    (if CategoryChecked(ma, mb) && ma.category == mb.category then 3.0 else 0.0)
    + (if EmotionChecked(ma, mb) && ma.emotion == mb.emotion then 2.0 else 0.0)
    + (if TimestampChecked(ma, mb) then TimestampCredit(ma.timestamp.value, mb.timestamp.value) else 0.0)
  }

  /** `calculateMetadataSimilarity`: the earned score over the weight of the checks that
      apply, 0 when no check applies or either memory has no metadata. */
  function MetadataSimilarity(a: VectorMemory, b: VectorMemory): (r: real)
    ensures 0.0 <= r <= 1.0
    ensures a.metadata.None? || b.metadata.None? ==> r == 0.0
    ensures a.metadata.Some? && b.metadata.Some? && TotalChecks(a.metadata.value, b.metadata.value) == 0.0 ==>
      r == 0.0
  {
    if a.metadata.None? || b.metadata.None? then 0.0
    else
      var ma, mb := a.metadata.value, b.metadata.value;
      var total := TotalChecks(ma, mb);
      if total > 0.0 then
        RatioBounds(MatchScore(ma, mb), total);
        MatchScore(ma, mb) / total
      else 0.0
  }

  lemma RatioBounds(x: real, t: real)
    requires t > 0.0 && 0.0 <= x <= t
    ensures 0.0 <= x / t <= 1.0
    ensures x / t == 1.0 <==> x == t
    ensures x / t == 0.0 <==> x == 0.0
    ensures (x / t) * t == x
  {
    assert (x / t) * t == x;
  }

  /** The score reaches the full weight exactly when every check that applies is fully
      met, and is 0 exactly when no check that applies earns anything. */
  lemma MatchScoreValue(ma: Metadata, mb: Metadata)
    ensures MatchScore(ma, mb) == TotalChecks(ma, mb) <==> FullMatch(ma, mb)
    ensures MatchScore(ma, mb) == 0.0 <==> NoMatch(ma, mb)
  {
    hide ParseTimestamp;
    if TimestampChecked(ma, mb) {
      TimestampCreditValue(ma.timestamp.value, mb.timestamp.value);
    }
  }

  /** The metadata record cut down to the one field a check reads. */
  datatype Field = CategoryField | EmotionField | TimestampField

  function Only(m: Metadata, f: Field): Metadata {
    match f
    case CategoryField => Metadata(m.category, None, None, m.importance)
    case EmotionField => Metadata(None, None, m.emotion, m.importance)
    case TimestampField => Metadata(None, m.timestamp, None, m.importance)
  }

  /** What each check earns: the checks are independent, the score being the sum of
      the scores of the one-field records; an equal category earns 3, an equal emotion
      2, timestamps their credit, and a check that does not apply or does not match
      earns nothing. */
  lemma MatchScoreByCheck(ma: Metadata, mb: Metadata)
    ensures MatchScore(ma, mb)
      == MatchScore(Only(ma, CategoryField), Only(mb, CategoryField))
       + MatchScore(Only(ma, EmotionField), Only(mb, EmotionField))
       + MatchScore(Only(ma, TimestampField), Only(mb, TimestampField))
    ensures MatchScore(Only(ma, CategoryField), Only(mb, CategoryField))
      == if CategoryChecked(ma, mb) && ma.category == mb.category then 3.0 else 0.0
    ensures MatchScore(Only(ma, EmotionField), Only(mb, EmotionField))
      == if EmotionChecked(ma, mb) && ma.emotion == mb.emotion then 2.0 else 0.0
    ensures MatchScore(Only(ma, TimestampField), Only(mb, TimestampField))
      == if TimestampChecked(ma, mb) then TimestampCredit(ma.timestamp.value, mb.timestamp.value) else 0.0
  {
  }

  /** The metadata similarity is the earned score as a share of the weight of the
      checks that apply: it is 1 exactly when both memories have metadata, some check
      applies and every check that applies is fully met, and 0 exactly when either has
      no metadata or no check that applies earns anything. */
  lemma MetadataSimilarityValue(a: VectorMemory, b: VectorMemory)
    ensures a.metadata.Some? && b.metadata.Some? && TotalChecks(a.metadata.value, b.metadata.value) > 0.0 ==>
      MetadataSimilarity(a, b) * TotalChecks(a.metadata.value, b.metadata.value)
        == MatchScore(a.metadata.value, b.metadata.value)
    ensures MetadataSimilarity(a, b) == 1.0 <==>
      && a.metadata.Some? && b.metadata.Some?
      && TotalChecks(a.metadata.value, b.metadata.value) > 0.0
      && FullMatch(a.metadata.value, b.metadata.value)
    ensures MetadataSimilarity(a, b) == 0.0 <==>
      a.metadata.None? || b.metadata.None? || NoMatch(a.metadata.value, b.metadata.value)
  {
    hide MatchScore, FullMatch, NoMatch;
    if a.metadata.Some? && b.metadata.Some? {
      var ma, mb := a.metadata.value, b.metadata.value;
      MatchScoreValue(ma, mb);
      if TotalChecks(ma, mb) > 0.0 {
        RatioBounds(MatchScore(ma, mb), TotalChecks(ma, mb));
      }
    }
  }

  lemma MetadataSimilaritySymmetric(a: VectorMemory, b: VectorMemory)
    ensures MetadataSimilarity(a, b) == MetadataSimilarity(b, a)
  {
  }

  /** A memory's metadata matches itself fully when its timestamp, if any, parses to a number. */
  lemma MetadataSimilaritySelf(a: VectorMemory)
    requires a.metadata.Some?
    requires var m := a.metadata.value; Truthy(m.category) || Truthy(m.emotion) || Truthy(m.timestamp)
    requires var m := a.metadata.value;
      Truthy(m.timestamp) ==> ParseTimestamp(m.timestamp.value).Some? && ParseTimestamp(m.timestamp.value).value.Number?
    ensures MetadataSimilarity(a, a) == 1.0
  {
    var m := a.metadata.value;
    if Truthy(m.timestamp) {
      var t := ParseTimestamp(m.timestamp.value);
      assert t.value.value - t.value.value == 0.0;
      assert TimestampCredit(m.timestamp.value, m.timestamp.value) == 1.0;
    }
    assert MatchScore(m, m) == TotalChecks(m, m);
    RatioBounds(MatchScore(m, m), TotalChecks(m, m));
  }

  /** A text without dash or colon is not a timestamp. */
  lemma ParseTimestampNoColon(t: string)
    requires '-' !in t && ':' !in t
    ensures ParseTimestamp(t) == None
  {
    SplitPiece(t, '-');
    var clean := Trim(t);
    TrimOccurs(t);
    var i := |t| - |TrimStart(t)|;
    assert clean == t[i..i + |clean|];
    assert ':' !in clean by {
      forall k | 0 <= k < |clean| ensures clean[k] != ':' {
        assert clean[k] == t[i + k];
      }
    }
    SplitPiece(clean, ':');
  }

  /** A timestamp that does not parse still counts in the denominator: two memories with
      the same category, no emotion and timestamps that are present but do not parse
      score 3/4, not 1. */
  lemma MetadataUnparsedTimestampCounts(a: VectorMemory, b: VectorMemory)
    requires a.metadata.Some? && b.metadata.Some?
    requires var ma, mb := a.metadata.value, b.metadata.value;
      && Truthy(ma.category) && ma.category == mb.category
      && ma.emotion.None? && mb.emotion.None?
      && Truthy(ma.timestamp) && Truthy(mb.timestamp)
      && ParseTimestamp(ma.timestamp.value).None?
    ensures MetadataSimilarity(a, b) == 0.75
  {
    var ma, mb := a.metadata.value, b.metadata.value;
    assert TimestampCredit(ma.timestamp.value, mb.timestamp.value) == 0.0;
    assert TotalChecks(ma, mb) == 4.0;
    assert MatchScore(ma, mb) == 3.0;
  }

  /** For instance, "soon" and "later" are not timestamps. */
  lemma MetadataUnparsedExample(a: VectorMemory, b: VectorMemory)
    requires a.metadata == Some(Metadata(Some("action"), Some("soon"), None, None))
    requires b.metadata == Some(Metadata(Some("action"), Some("later"), None, None))
    ensures MetadataSimilarity(a, b) == 0.75
  {
    ParseTimestampNoColon("soon");
    MetadataUnparsedTimestampCounts(a, b);
  }

  // ---------------------------------------------------------------------------
  // calculateCombinedSimilarity

  /** `calculateCombinedSimilarity`: 70% semantic plus 30% metadata similarity. */
  function CombinedSimilarity(a: VectorMemory, b: VectorMemory, rt: Runtime): (r: real)
    ensures r >= 0.0
    ensures 0.7 * SentenceSimilarity(a, b, rt) <= r <= 0.7 * SentenceSimilarity(a, b, rt) + 0.3
  {
    SentenceSimilarity(a, b, rt) * 0.7 + MetadataSimilarity(a, b) * 0.3
  }

  lemma CombinedSimilarityBounded(a: VectorMemory, b: VectorMemory, rt: Runtime)
    requires IsSqrt(rt.sqrt)
    ensures 0.0 <= CombinedSimilarity(a, b, rt) <= 1.0
  {
    SentenceSimilarityBounded(a, b, rt);
  }

  lemma CombinedSimilaritySymmetric(a: VectorMemory, b: VectorMemory, rt: Runtime)
    ensures CombinedSimilarity(a, b, rt) == CombinedSimilarity(b, a, rt)
  {
    SentenceSimilaritySymmetric(a, b, rt);
    MetadataSimilaritySymmetric(a, b);
  }

  /** Metadata alone can never push a pair over the graph's similarity threshold: since
      metadata contributes at most 0.3, a combined score above the threshold needs a
      semantic similarity above (threshold - 0.3) / 0.7, which is 3/7. */
  lemma MetadataAloneNeverLinks(a: VectorMemory, b: VectorMemory, rt: Runtime)
    requires CombinedSimilarity(a, b, rt) > Constants.MinSimilarityThreshold
    ensures SentenceSimilarity(a, b, rt) > (Constants.MinSimilarityThreshold - 0.3) / 0.7
    ensures (Constants.MinSimilarityThreshold - 0.3) / 0.7 == 3.0 / 7.0
  {
  }
}
