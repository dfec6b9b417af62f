/** One quantized orientation sample (`struct EulerAngle`), its
    tolerance-equality and its JSON rendering. */
module Orientation {
  import opened Wrappers
  import opened Decimal

  /** Largest per-axis difference two samples may have and still be equal. */
  const TOLERANCE: int := 2

  function Abs(x: int): nat { if x < 0 then -x else x }

  /** A sample. Each axis comes from the sensor quantized to 0..18, but nothing
      below depends on that range. A default-constructed sample is all zeros. */
  datatype EulerAngle = EulerAngle(roll: int, pitch: int, yaw: int) {

    /** `EulerAngle::equals`: every axis differs from `ua`'s by at most TOLERANCE. */
    predicate Equals(ua: EulerAngle): (r: bool)
      ensures r <==> (&& ua.roll - TOLERANCE <= roll <= ua.roll + TOLERANCE
                      && ua.pitch - TOLERANCE <= pitch <= ua.pitch + TOLERANCE
                      && ua.yaw - TOLERANCE <= yaw <= ua.yaw + TOLERANCE)
    {
      Abs(roll - ua.roll) <= TOLERANCE
      && Abs(pitch - ua.pitch) <= TOLERANCE
      && Abs(yaw - ua.yaw) <= TOLERANCE
    }

    /** `EulerAngle::toJSONString`. */
    function ToJSONString(): string {
      RollKey + IntToString(roll) + PitchKey + IntToString(pitch)
        + YawKey + IntToString(yaw) + CloseBrace
    }
  }

  /** The value `EulerAngle lastAngle;` starts from in the recording and matching loops. */
  const Origin := EulerAngle(0, 0, 0)

  const RollKey := "\n{\n\"roll\": "
  const PitchKey := ",\n\"pitch\": "
  const YawKey := ",\n\"yaw\": "
  const CloseBrace := "\n}"

  lemma EqualsReflexive(a: EulerAngle)
    ensures a.Equals(a)
  {
  }

  lemma EqualsSymmetric(a: EulerAngle, b: EulerAngle)
    ensures a.Equals(b) <==> b.Equals(a)
  {
  }

  /** Tolerance-equality is not transitive: rolls 0, 2 and 4. */
  lemma EqualsNotTransitive()
    ensures exists a: EulerAngle, b: EulerAngle, c: EulerAngle ::
      a.Equals(b) && b.Equals(c) && !a.Equals(c)
  {
    var a, b, c := EulerAngle(0, 0, 0), EulerAngle(2, 0, 0), EulerAngle(4, 0, 0);
    assert a.Equals(b) && b.Equals(c) && !a.Equals(c);
  }

  /** Strips `lit` off the front of `s`. */
  function Expect(lit: string, s: string): (r: Option<string>)
    ensures r.Some? ==> s == lit + r.value
  {
    if |lit| <= |s| && s[..|lit|] == lit then Some(s[|lit|..]) else None
  }

  lemma ExpectLiteral(lit: string, t: string)
    ensures Expect(lit, lit + t) == Some(t)
  {
    assert (lit + t)[..|lit|] == lit;
    assert (lit + t)[|lit|..] == t;
  }

  /** Reads one rendered sample off the front of `s`. */
  function ParseAngle(s: string): (r: Option<(EulerAngle, string)>)
    ensures r.Some? ==> |r.value.1| < |s|
  {
    var s1 :- Expect(RollKey, s);
    var roll :- ReadInt(s1);
    var s2 :- Expect(PitchKey, roll.1);
    var pitch :- ReadInt(s2);
    var s3 :- Expect(YawKey, pitch.1);
    var yaw :- ReadInt(s3);
    var s4 :- Expect(CloseBrace, yaw.1);
    Some((EulerAngle(roll.0, pitch.0, yaw.0), s4))
  }

  /** What a successful parse leaves is the input with the rendering taken off
      its front. */
  lemma ParseAngleLeavesSuffix(s: string)
    ensures ParseAngle(s).Some? ==> EndsWith(s, ParseAngle(s).value.1)
  {
    if ParseAngle(s).Some? {
      var s1 := Expect(RollKey, s).value;
      var roll := ReadInt(s1).value;
      var s2 := Expect(PitchKey, roll.1).value;
      var pitch := ReadInt(s2).value;
      var s3 := Expect(YawKey, pitch.1).value;
      var yaw := ReadInt(s3).value;
      var s4 := Expect(CloseBrace, yaw.1).value;
      assert ParseAngle(s).value.1 == s4;
      EndsWithAppend(RollKey, s1);
      EndsWithTransitive(s, s1, roll.1);
      EndsWithAppend(PitchKey, s2);
      EndsWithTransitive(s, roll.1, s2);
      EndsWithTransitive(s, s2, pitch.1);
      EndsWithAppend(YawKey, s3);
      EndsWithTransitive(s, pitch.1, s3);
      EndsWithTransitive(s, s3, yaw.1);
      EndsWithAppend(CloseBrace, s4);
      EndsWithTransitive(s, yaw.1, s4);
    }
  }

  /** The rendering of a sample reads back as that sample, whatever follows it. */
  /** Regrouping a rendering followed by more text, innermost last. */
  lemma RightNested(a: string, b: string, c: string, d: string, e: string, f: string, g: string, t: string)
    ensures a + b + c + d + e + f + g + t == a + (b + (c + (d + (e + (f + (g + t))))))
  {
  }

  lemma ParseAngleAfterRender(a: EulerAngle, t: string)
    ensures ParseAngle(a.ToJSONString() + t) == Some((a, t))
  {
    var r, p, y := IntToString(a.roll), IntToString(a.pitch), IntToString(a.yaw);
    var t4 := CloseBrace + t;
    var t3 := y + t4;
    var t2 := YawKey + t3;
    var t1 := p + t2;
    var t0 := PitchKey + t1;
    var tr := r + t0;
    assert a.ToJSONString() + t == RollKey + tr by {
      RightNested(RollKey, r, PitchKey, p, YawKey, y, CloseBrace, t);
    }
    ExpectLiteral(RollKey, tr);
    ReadIntAfterRender(a.roll, t0);
    ExpectLiteral(PitchKey, t1);
    ReadIntAfterRender(a.pitch, t2);
    ExpectLiteral(YawKey, t3);
    ReadIntAfterRender(a.yaw, t4);
    ExpectLiteral(CloseBrace, t);
  }

  /** Printable ASCII, from space to tilde. */
  predicate Printable(c: char) {
    ' ' <= c <= '~'
  }

  /** The rendering never contains a backspace or any other control character
      except the newline. */
  lemma RenderHasNoControlCharacters(a: EulerAngle)
    ensures forall i :: 0 <= i < |a.ToJSONString()| ==>
      a.ToJSONString()[i] == '\n' || Printable(a.ToJSONString()[i])
  {
    IntPrintable(a.roll);
    IntPrintable(a.pitch);
    IntPrintable(a.yaw);
  }

  lemma IntPrintable(n: int)
    ensures forall i :: 0 <= i < |IntToString(n)| ==> Printable(IntToString(n)[i])
  {
    var d := NatToString(if n < 0 then -n else n);
    assert forall i :: 0 <= i < |d| ==> IsDigit(d[i]);
  }

  /** The rendering is never empty. */
  lemma RenderNonEmpty(a: EulerAngle)
    ensures |a.ToJSONString()| > |RollKey|
  {
  }
}
