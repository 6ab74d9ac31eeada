/** The mapping between continuous stand state (basal area, age) and class indices, and back
    from a class index to its class mark. */
module Discretizer {

  /** Python's int() on a float: truncation toward zero. */
  function Trunc(x: real): (r: int)
    ensures x >= 0.0 ==> r as real <= x < r as real + 1.0
    ensures x < 0.0 ==> r as real - 1.0 < x <= r as real
  {
    if x >= 0.0 then x.Floor else -((-x).Floor)
  }

  /** asignar_clase_G: index of the basal-area class holding `basalArea`, floor(G / width). */
  function BasalAreaClass(basalArea: real, width: int): (r: int)
    requires width != 0
    ensures r as real <= basalArea / width as real < r as real + 1.0
  {
    (basalArea / width as real).Floor
  }

  /** calcular_mc_G: the class mark (midpoint) of basal-area class `index`. */
  function BasalAreaMark(index: int, width: int): real
  {
    (index * width) as real + width as real / 2.0
  }

  /** asignar_clase_E: int(E / width - 1).  Ages are labelled by the upper bound of their class,
      and truncation toward zero sends every age strictly between 0 and one width to class 0. */
  function AgeClass(age: int, width: int): (r: int)
    requires width != 0
    ensures width > 0 && age >= width ==> AgeMark(r, width) <= age < AgeMark(r + 1, width)
    ensures width > 0 && 0 < age < width ==> r == 0
    ensures width > 0 && age == 0 ==> r == -1
  {
    TruncatedAgeClass(age, width);
    Trunc(age as real / width as real - 1.0)
  }

  /** calcular_mc_E: the class mark (upper bound) of age class `index`. */
  function AgeMark(index: int, width: int): int
  {
    index * width + width
  }

  /** The bounds AgeClass promises, stated about the truncation it computes. */
  lemma TruncatedAgeClass(age: int, width: int)
    requires width != 0
    ensures var r := Trunc(age as real / width as real - 1.0);
      && (width > 0 && age >= width ==> r * width + width <= age < (r + 1) * width + width)
      && (width > 0 && 0 < age < width ==> r == 0)
      && (width > 0 && age == 0 ==> r == -1)
  {
    if width > 0 && age >= width {
      TruncatedAgeClassAbove(age, width);
    } else if width > 0 && 0 < age {
      var q := age as real / width as real;
      if q <= 0.0 { ScaledBelow(age as real, q, width as real); }
      if q >= 1.0 { ScaledBelow(age as real, 1.0, width as real); }
    }
  }

  lemma TruncatedAgeClassAbove(age: int, width: int)
    requires 0 < width <= age
    ensures var r := Trunc(age as real / width as real - 1.0);
      (r + 1) * width <= age < (r + 2) * width
  {
    var w := width as real;
    var q := age as real / w;
    if q < 1.0 { ScaledAbove(age as real, 1.0, w); }
    var r := Trunc(q - 1.0);
    assert r as real + 1.0 <= q < r as real + 2.0;
    ScaledBelow(age as real, (r + 1) as real, w);
    ScaledAbove(age as real, (r + 2) as real, w);
    IntProductAsReal(r + 1, width);
    IntProductAsReal(r + 2, width);
  }

  lemma IntProductAsReal(a: int, b: int)
    ensures (a * b) as real == a as real * b as real
  {
  }

  lemma MulDivCancel(a: real, w: real)
    requires w != 0.0
    ensures a * w / w == a
  {
  }

  lemma DivMul(x: real, w: real)
    requires w != 0.0
    ensures x / w * w == x
  {
  }

  lemma MulLe(a: real, b: real, w: real)
    requires w > 0.0 && a <= b
    ensures a * w <= b * w
  {
  }

  lemma MulLt(a: real, b: real, w: real)
    requires w > 0.0 && a < b
    ensures a * w < b * w
  {
  }

  lemma DivAdd(a: real, b: real, w: real)
    requires w != 0.0
    ensures (a * w + b) / w == a + b / w
  {
    DivMul(a * w + b, w);
    DivMul(b, w);
    assert (a + b / w) * w == a * w + b / w * w;
  }

  /** Decoding a basal-area class to its midpoint and encoding again gives back the class. */
  lemma BasalAreaRoundTrip(index: int, width: int)
    requires width > 0
    ensures BasalAreaClass(BasalAreaMark(index, width), width) == index
  {
    var w := width as real;
    assert (index * width) as real == index as real * w;
    DivAdd(index as real, w / 2.0, w);
    DivAdd(0.5, 0.0, w);
  }

  /** Every basal area lies within half a class width of the mark of its class. */
  lemma BasalAreaNearMark(basalArea: real, width: int)
    requires width > 0
    ensures var mark := BasalAreaMark(BasalAreaClass(basalArea, width), width);
      mark - width as real / 2.0 <= basalArea < mark + width as real / 2.0
  {
    var w := width as real;
    var k := BasalAreaClass(basalArea, width);
    assert (k * width) as real == k as real * w;
    ScaledFloor(basalArea, k as real, w);
  }

  /** From k <= x / w < k + 1 with w > 0, multiplying through by w. */
  lemma ScaledFloor(x: real, k: real, w: real)
    requires w > 0.0 && k <= x / w < k + 1.0
    ensures k * w <= x < k * w + w
  {
    ScaledBelow(x, k, w);
    ScaledAbove(x, k + 1.0, w);
    assert (k + 1.0) * w == k * w + w;
  }

  lemma ScaledBelow(x: real, k: real, w: real)
    requires w > 0.0 && k <= x / w
    ensures k * w <= x
  {
    DivMul(x, w);
    MulLe(k, x / w, w);
  }

  lemma ScaledAbove(x: real, k: real, w: real)
    requires w > 0.0 && x / w < k
    ensures x < k * w
  {
    DivMul(x, w);
    MulLt(x / w, k, w);
  }

  /** Decoding an age class to its upper bound and encoding again gives back the class, for every
      index (the terminal index -1 decodes to age 0 and comes back as -1). */
  lemma AgeRoundTrip(index: int, width: int)
    requires width != 0
    ensures AgeClass(AgeMark(index, width), width) == index
  {
    var w := width as real;
    var mark := AgeMark(index, width);
    assert mark == (index + 1) * width;
    IntProductAsReal(index + 1, width);
    assert mark as real == (index + 1) as real * w;
    MulDivCancel((index + 1) as real, w);
    assert mark as real / w == (index + 1) as real;
    assert mark as real / w - 1.0 == index as real;
  }
}
