/** One alarm: the condition it watches for and when it may clear again. */
module AlarmCondition {

  datatype Condition = Below | Above | Outside | Inside | Overload | NoReadings

  /** Which value of which meter; an empty source is any meter. */
  datatype ValueRef = ValueRef(source: string, id: int) {
    predicate Matches(valueId: int, from: string) {
      valueId == id && (source == "" || from == source)
    }
  }

  type Color = nat

  datatype Alarm = Alarm(
    name: string, enabled: bool, value: ValueRef, condition: Condition,
    a: real, b: real, seconds: real, hysteresis: real,
    color: Color, tintDisplay: bool)

  function Min(x: real, y: real): real { if y < x then y else x }

  function Max(x: real, y: real): real { if x < y then y else x }

  function Abs(x: real): real { if x < 0.0 then -x else x }

  /** Seconds as whole milliseconds: the conversion to an integer drops the fraction. */
  function Millis(seconds: real): int {
    var ms := seconds * 1000.0;
    if ms >= 0.0 then ms.Floor else -(-ms).Floor
  }

  /** The whole milliseconds of a duration have passed when less than one is missing of it: a
      fraction of a millisecond does not count. */
  lemma MillisPass(seconds: real, elapsed: int)
    ensures seconds >= 0.0 ==> (elapsed >= Millis(seconds) <==> elapsed as real + 1.0 > 1000.0 * seconds)
    ensures seconds <= 0.0 ==> (elapsed >= Millis(seconds) <==> elapsed as real >= 1000.0 * seconds)
  {
  }

  /** Whether a reading satisfies the condition itself. */
  predicate Matches(al: Alarm, value: real, overload: bool) {
    match al.condition
    case Overload => overload
    case NoReadings => false
    case Below => !overload && value < al.a
    case Above => !overload && value > al.a
    case Outside => !overload && (value < Min(al.a, al.b) || value > Max(al.a, al.b))
    case Inside => !overload && Min(al.a, al.b) <= value <= Max(al.a, al.b)
  }

  /** Whether the reading has moved back beyond the hysteresis band. */
  predicate Released(al: Alarm, value: real, overload: bool) {
    var lo, hi, h := Min(al.a, al.b), Max(al.a, al.b), Abs(al.hysteresis);
    match al.condition
    case Overload => !overload
    case NoReadings => true
    case Below => !overload && value >= al.a + h
    case Above => !overload && value <= al.a - h
    case Outside => !overload && lo + h <= value <= hi - h
    case Inside => !overload && (value < lo - h || value > hi + h)
  }

  /** The bounds of a range may come in either order, and a reading out of range satisfies no
      condition on the value. */
  lemma MatchesExactly(al: Alarm, value: real, overload: bool)
    ensures Matches(al, value, overload) <==>
            if al.condition == Overload then overload
            else if al.condition == NoReadings || overload then false
            else
              || (al.condition == Below && value < al.a)
              || (al.condition == Above && value > al.a)
              || (al.condition == Outside && ((value < al.a && value < al.b) || (value > al.a && value > al.b)))
              || (al.condition == Inside && (al.a <= value <= al.b || al.b <= value <= al.a))
    ensures al.condition == Outside && !overload ==>
              (Matches(al, value, overload) <==> !Matches(al.(condition := Inside), value, overload))
  {
  }

  /** A reading clears an alarm on the value exactly when no value within the hysteresis of it
      satisfies the condition; one out of range clears none, nor keeps one on overload raised. */
  lemma ReleasedExactly(al: Alarm, w: real)
    requires al.condition != NoReadings
    ensures var h := if al.hysteresis < 0.0 then -al.hysteresis else al.hysteresis;
            al.condition != Overload ==>
              && (Released(al, w, false) <==> forall v :: -h <= v - w <= h ==> !Matches(al, v, false))
              && !Released(al, w, true)
    ensures al.condition == Overload ==> Released(al, w, false) && !Released(al, w, true)
  {
    var h := Abs(al.hysteresis);
    if al.condition != Overload && !Released(al, w, false) {
      var v := match al.condition
        case Below => w - h
        case Above => w + h
        case Outside => if w - h < Min(al.a, al.b) then w - h else w + h
        case _ => if w < Min(al.a, al.b) then Min(al.a, al.b) else if w > Max(al.a, al.b) then Max(al.a, al.b) else w;
      assert -h <= v - w <= h && Matches(al, v, false);
    }
  }

  /** No reading both raises and clears, whatever the bounds' order and the sign of the
      hysteresis; without a hysteresis every reading that is no overload does one of the two. */
  lemma MatchOrRelease(al: Alarm, value: real, overload: bool)
    ensures !(Matches(al, value, overload) && Released(al, value, overload))
    ensures al.hysteresis == 0.0 && !overload ==> Matches(al, value, overload) || Released(al, value, overload)
  {
  }

  /** An alarm outside a range narrower than two hystereses. */
  predicate BandSwallowsRange(al: Alarm) {
    al.condition == Outside && 2.0 * Abs(al.hysteresis) > Abs(al.b - al.a)
  }

  /** Every alarm has a reading that clears it, except the ones outside a range narrower
      than two hystereses: those have none. */
  lemma ReleasePossible(al: Alarm)
    ensures (exists v, o :: Released(al, v, o)) <==> !BandSwallowsRange(al)
  {
    if !BandSwallowsRange(al) {
      var h := Abs(al.hysteresis);
      var v := match al.condition
        case Below => al.a + h
        case Above => al.a - h
        case Outside => Min(al.a, al.b) + h
        case Inside => Max(al.a, al.b) + h + 1.0
        case _ => 0.0;
      assert Released(al, v, false);
    }
  }
}
