/** A recorded motion (`class Gesture`): the ordered samples, the indexed
    tolerance comparison, the step count and the JSON rendering. */
module Templates {
  import opened Wrappers
  import opened Orientation

  datatype Gesture = Gesture(values: seq<EulerAngle>) {

    /** `Gesture::equals(euler, n)`: whether step `n` of the template is within
        tolerance of `euler`; `values->at(n)` throws for a step that does not exist. */
    function Equals(euler: EulerAngle, n: int): (r: Result<bool>)
      ensures r.Ok? <==> 0 <= n < |values|
      ensures r.Ok? ==> (r.value <==> (&& euler.roll - TOLERANCE <= values[n].roll <= euler.roll + TOLERANCE
                                       && euler.pitch - TOLERANCE <= values[n].pitch <= euler.pitch + TOLERANCE
                                       && euler.yaw - TOLERANCE <= values[n].yaw <= euler.yaw + TOLERANCE))
    {
      if 0 <= n < |values| then Ok(values[n].Equals(euler)) else OutOfRange
    }

    /** `Gesture::getNumSteps`: the number of samples in the template. */
    function NumSteps(): (n: nat)
      ensures n == |values|
    {
      |values|
    }

    /** `Gesture::toJSONString`: appends each sample's rendering and a ", " to
        the header, then two backspaces and the closing brackets. */
    method ToJSONString() returns (builder: string)
      ensures builder == GestureJSON(values)
    {
      builder := Header;
      for i := 0 to |values|
        invariant builder == Header + Terminated(Renderings(values[..i]))
      {
        var item := values[i].ToJSONString();
        RenderingsPrefix(values, i);
        BuilderStep(Renderings(values[..i]), item, builder);
        builder := builder + (item + Separator);
      }
      assert values[..|values|] == values;
      builder := builder + Trailer;
    }
  }

  const Backspace: char := 8 as char
  const Header := "{\n\"gesture\": ["
  const Separator := ", "
  const Footer := "]\n}"
  /** What the renderer writes after the last item: two backspaces, then the footer. */
  const Trailer := [Backspace, Backspace] + Footer

  /** Whitespace JSON admits between tokens (section 2 of RFC 8259). */
  predicate JsonWhitespace(c: char) {
    c == ' ' || c == '\t' || c == '\n' || c == '\r'
  }

  /** Each sample's rendering, in template order. */
  function Renderings(vs: seq<EulerAngle>): (ps: seq<string>)
    ensures |ps| == |vs|
  {
    if vs == [] then [] else [vs[0].ToJSONString()] + Renderings(vs[1..])
  }

  /** Every part followed by a separator. */
  function Terminated(ps: seq<string>): string {
    if ps == [] then "" else ps[0] + (Separator + Terminated(ps[1..]))
  }

  /** The parts of a non-empty list with a separator between neighbours and
      none after the last: what a JSON array holds. */
  function Joined(ps: seq<string>): string
    requires ps != []
  {
    if |ps| == 1 then ps[0] else ps[0] + (Separator + Joined(ps[1..]))
  }

  /** The text `Gesture::toJSONString` returns for the samples `vs`. */
  function GestureJSON(vs: seq<EulerAngle>): string {
    Header + Terminated(Renderings(vs)) + Trailer
  }

  /** The evidently intended rendering: the items joined, no control characters. */
  function JoinedJSON(vs: seq<EulerAngle>): string {
    Header + (if vs == [] then "" else Joined(Renderings(vs))) + Footer
  }

  lemma {:induction false} RenderingsSnoc(vs: seq<EulerAngle>, v: EulerAngle)
    ensures Renderings(vs + [v]) == Renderings(vs) + [v.ToJSONString()]
  {
    if vs != [] {
      assert (vs + [v])[1..] == vs[1..] + [v];
      RenderingsSnoc(vs[1..], v);
    } else {
      assert (vs + [v])[1..] == [];
    }
  }

  lemma AppendAssociative(a: string, b: string, c: string)
    ensures (a + b) + c == a + (b + c)
  {
  }

  lemma {:induction false} TerminatedSnoc(ps: seq<string>, p: string)
    ensures Terminated(ps + [p]) == Terminated(ps) + (p + Separator)
  {
    if ps != [] {
      assert (ps + [p])[1..] == ps[1..] + [p];
      TerminatedSnoc(ps[1..], p);
    } else {
      assert (ps + [p])[1..] == [];
    }
  }

  /** The renderings of a prefix one sample longer. */
  lemma RenderingsPrefix(vs: seq<EulerAngle>, i: nat)
    requires i < |vs|
    ensures Renderings(vs[..i + 1]) == Renderings(vs[..i]) + [vs[i].ToJSONString()]
  {
    assert vs[..i + 1] == vs[..i] + [vs[i]];
    RenderingsSnoc(vs[..i], vs[i]);
  }

  /** One turn of the renderer's loop: appending the next item and a separator
      extends the accumulated text by that item. */
  lemma BuilderStep(prev: seq<string>, item: string, builder: string)
    requires builder == Header + Terminated(prev)
    ensures builder + (item + Separator) == Header + Terminated(prev + [item])
  {
    TerminatedSnoc(prev, item);
    AppendAssociative(Header, Terminated(prev), item + Separator);
  }

  /** Reads a gesture rendered as `JoinedJSON`. */
  function ParseGestureJSON(s: string): Option<seq<EulerAngle>> {
    var body :- Expect(Header, s);
    if body == Footer then Some([]) else ParseItems(body)
  }

  function ParseItems(s: string): Option<seq<EulerAngle>>
    decreases |s|
  {
    var first :- ParseAngle(s);
    if first.1 == Footer then Some([first.0])
    else
      var rest :- Expect(Separator, first.1);
      var tail :- ParseItems(rest);
      Some([first.0] + tail)
  }

  /** The first rendering and the renderings of the rest. */
  lemma RenderingsCons(vs: seq<EulerAngle>)
    requires vs != []
    ensures Renderings(vs)[0] == vs[0].ToJSONString()
    ensures Renderings(vs)[1..] == Renderings(vs[1..])
  {
  }

  /** Parts that each read back as their sample, whatever follows them. */
  ghost predicate ReadBack(ps: seq<string>, vs: seq<EulerAngle>)
    decreases |ps|
  {
    && |ps| == |vs|
    && (ps != [] ==>
         && (forall t :: ParseAngle(ps[0] + t) == Some((vs[0], t)))
         && ReadBack(ps[1..], vs[1..]))
  }

  lemma ParseItemsLast(s: string, a: EulerAngle)
    requires ParseAngle(s) == Some((a, Footer))
    ensures ParseItems(s) == Some([a])
  {
  }

  lemma ParseItemsMore(s: string, a: EulerAngle, u: string, rest: seq<EulerAngle>)
    requires ParseAngle(s) == Some((a, Separator + u))
    requires ParseItems(u) == Some(rest)
    ensures ParseItems(s) == Some([a] + rest)
  {
    assert (Separator + u)[0] != Footer[0];
    ExpectLiteral(Separator, u);
  }

  /** A single item followed by the footer reads back as that item. */
  lemma ParseItemsJoinedOne(ps: seq<string>, vs: seq<EulerAngle>)
    requires |vs| == 1 && ReadBack(ps, vs)
    ensures ParseItems(Joined(ps) + Footer) == Some(vs)
  {
    assert ParseAngle(ps[0] + Footer) == Some((vs[0], Footer));
    ParseItemsLast(ps[0] + Footer, vs[0]);
    assert vs == [vs[0]];
  }

  /** An item, a separator and a list that reads back read back as the longer list. */
  lemma ParseItemsJoinedMore(p: string, rest: string, a: EulerAngle, tail: seq<EulerAngle>)
    requires ParseAngle(p + (Separator + (rest + Footer))) == Some((a, Separator + (rest + Footer)))
    requires ParseItems(rest + Footer) == Some(tail)
    ensures ParseItems((p + (Separator + rest)) + Footer) == Some([a] + tail)
  {
    AppendAssociative(p, Separator + rest, Footer);
    AppendAssociative(Separator, rest, Footer);
    ParseItemsMore(p + (Separator + (rest + Footer)), a, rest + Footer, tail);
  }

  lemma {:induction false} ParseItemsAfterJoined(ps: seq<string>, vs: seq<EulerAngle>)
    requires vs != [] && ReadBack(ps, vs)
    ensures ParseItems(Joined(ps) + Footer) == Some(vs)
  {
    if |vs| == 1 {
      ParseItemsJoinedOne(ps, vs);
    } else {
      ParseItemsAfterJoined(ps[1..], vs[1..]);
      var u := Joined(ps[1..]) + Footer;
      assert ParseAngle(ps[0] + (Separator + u)) == Some((vs[0], Separator + u));
      ParseItemsJoinedMore(ps[0], Joined(ps[1..]), vs[0], vs[1..]);
      assert [vs[0]] + vs[1..] == vs;
    }
  }

  lemma {:induction false} RenderingsReadBack(vs: seq<EulerAngle>)
    decreases |vs|
    ensures ReadBack(Renderings(vs), vs)
  {
    if vs != [] {
      RenderingsCons(vs);
      RenderingsReadBack(vs[1..]);
      forall t ensures ParseAngle(Renderings(vs)[0] + t) == Some((vs[0], t)) {
        ParseAngleAfterRender(vs[0], t);
      }
    }
  }

  /** The intended rendering reads back as the template it was made from. */
  lemma JoinedJSONRoundTrip(vs: seq<EulerAngle>)
    ensures ParseGestureJSON(JoinedJSON(vs)) == Some(vs)
  {
    var body := (if vs == [] then "" else Joined(Renderings(vs))) + Footer;
    assert JoinedJSON(vs) == Header + body;
    ExpectLiteral(Header, body);
    if vs != [] {
      RenderingsCons(vs);
      RenderNonEmpty(vs[0]);
      JoinedLength(Renderings(vs));
      assert body != Footer by { assert |body| > |Footer|; }
      RenderingsReadBack(vs);
      ParseItemsAfterJoined(Renderings(vs), vs);
    }
  }

  lemma {:induction false} JoinedLength(ps: seq<string>)
    requires ps != []
    ensures |Joined(ps)| >= |ps[0]|
  {
  }

  lemma {:induction false} JoinedHasNoBackspace(vs: seq<EulerAngle>)
    requires vs != []
    ensures Backspace !in Joined(Renderings(vs))
  {
    RenderingsCons(vs);
    RenderHasNoControlCharacters(vs[0]);
    if |vs| > 1 {
      JoinedHasNoBackspace(vs[1..]);
    }
  }

  /** The intended rendering holds no backspace. */
  lemma JoinedJSONHasNoBackspace(vs: seq<EulerAngle>)
    ensures Backspace !in JoinedJSON(vs)
  {
    if vs != [] {
      JoinedHasNoBackspace(vs);
    }
  }

  lemma {:induction false} TerminatedIsJoinedWithSeparator(ps: seq<string>)
    requires ps != []
    ensures Terminated(ps) == Joined(ps) + Separator
  {
    if |ps| > 1 {
      TerminatedIsJoinedWithSeparator(ps[1..]);
    } else {
      assert ps[1..] == [];
    }
  }

  /** What is written is the intended list with the separator still after its
      last item and the two backspaces after that: nothing is removed. */
  lemma AsWrittenKeepsSeparator(vs: seq<EulerAngle>)
    ensures vs == [] ==> GestureJSON(vs) == Header + Trailer
    ensures vs != [] ==> GestureJSON(vs) == Header + Joined(Renderings(vs)) + Separator + Trailer
  {
    var ps := Renderings(vs);
    if vs != [] {
      TerminatedIsJoinedWithSeparator(ps);
      AppendAssociative(Header, Joined(ps), Separator);
    } else {
      assert Terminated(ps) == "";
    }
  }

  /** Where the trailer's backspaces sit in a text that ends with it. */
  lemma TrailerEnds(pre: string)
    ensures var s := pre + Trailer;
      |s| == |pre| + 5 && s[|s| - 5] == Backspace && s[|s| - 4] == Backspace
  {
    var s := pre + Trailer;
    assert s[|pre|] == Trailer[0] && s[|pre| + 1] == Trailer[1];
  }

  /** Where the separator sits in a text that ends with it and the trailer. */
  lemma SeparatorBeforeTrailer(front: string)
    ensures var s := (front + Separator) + Trailer; s[|s| - 7..|s| - 5] == Separator
  {
    var s := (front + Separator) + Trailer;
    assert s[|s| - 7..|s| - 5] == (front + Separator)[|front|..];
  }

  /** The rendering always ends in two raw backspaces before the footer, which
      JSON does not admit as whitespace; for a non-empty template they follow
      the separator written after the last item. */
  lemma AsWrittenBackspaces(vs: seq<EulerAngle>)
    ensures var s := GestureJSON(vs);
      && |s| >= |Header| + 5
      && s[|s| - 5] == Backspace && s[|s| - 4] == Backspace
      && !JsonWhitespace(Backspace)
      && (vs != [] ==> s[|s| - 7..|s| - 5] == Separator)
  {
    var ps := Renderings(vs);
    var pre := Header + Terminated(ps);
    TrailerEnds(pre);
    if vs != [] {
      var front := Header + Joined(ps);
      TerminatedIsJoinedWithSeparator(ps);
      AppendAssociative(Header, Joined(ps), Separator);
      assert pre == front + Separator;
      SeparatorBeforeTrailer(front);
    }
  }

  /** Two texts that agree outside a middle part agree on the middle part. */
  lemma SameMiddle(h: string, x: string, y: string, z: string)
    requires h + x + z == h + y + z
    ensures x == y
  {
    var s := h + x + z;
    assert |x| == |y|;
    assert x == s[|h|..|h| + |x|];
  }

  /** Despite the backspaces, the written text still determines the template. */
  lemma GestureJSONInjective(a: seq<EulerAngle>, b: seq<EulerAngle>)
    requires GestureJSON(a) == GestureJSON(b)
    ensures a == b
  {
    AsWrittenKeepsSeparator(a);
    AsWrittenKeepsSeparator(b);
    assert (a == []) == (b == []) by {
      if a != [] { assert |GestureJSON(a)| > |Header + Trailer|; }
      if b != [] { assert |GestureJSON(b)| > |Header + Trailer|; }
    }
    if a != [] {
      var ja, jb := Joined(Renderings(a)), Joined(Renderings(b));
      AppendAssociative(Header + ja, Separator, Trailer);
      AppendAssociative(Header + jb, Separator, Trailer);
      SameMiddle(Header, ja, jb, Separator + Trailer);
      JoinedJSONRoundTrip(a);
      JoinedJSONRoundTrip(b);
    }
  }
}
