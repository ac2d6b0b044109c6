/** `timeToSeconds`: clock text such as "1:02:03" to a number of seconds. */
module TimeCodec {
  import opened Wrappers
  import opened Text

  predicate IsDigit(c: char) {
    '0' <= c <= '9'
  }

  predicate AllDigits(t: string) {
    forall i :: 0 <= i < |t| ==> IsDigit(t[i])
  }

  function DigitsValue(t: string): nat
    requires AllDigits(t)
  {
    if t == [] then 0 else DigitsValue(t[..|t| - 1]) * 10 + (t[|t| - 1] as int - '0' as int)
  }

  /** `Number(group)` for a group of clock text: surrounding white space is
      ignored, a blank group is 0, a run of decimal digits is its value, and
      anything else is `NaN`, here `None`. */
  function NumberOf(group: string): (n: Option<nat>)
    ensures IsBlank(group) ==> n == Some(0)
  {
    var t := Trim(group);
    if AllDigits(t) then Some(DigitsValue(t)) else None
  }

  /** `x || 0`: `NaN` (and 0) count as 0. */
  function OrZero(n: Option<nat>): nat {
    match n
    case Some(v) => v
    case None => 0
  }

  /** `pieces.map(Number)` */
  function Numbers(pieces: seq<string>): (ns: seq<Option<nat>>)
    ensures |ns| == |pieces|
  {
    if pieces == [] then [] else Numbers(pieces[..|pieces| - 1]) + [NumberOf(pieces[|pieces| - 1])]
  }

  /** `timeStr.split(':').map(Number)` */
  function Groups(timeStr: string): seq<Option<nat>> {
    Numbers(Split(timeStr, ':'))
  }

  /** The value of groups read left to right, each step shifting by 60. */
  function ClockValue(parts: seq<Option<nat>>): nat {
    if parts == [] then 0
    else ClockValue(parts[..|parts| - 1]) * 60 + OrZero(parts[|parts| - 1])
  }

  ghost function ClockSeconds(timeStr: string): nat {
    ClockValue(Groups(timeStr))
  }

  function Pow60(k: nat): (p: nat)
    ensures p >= 1
  {
    if k == 0 then 1 else 60 * Pow60(k - 1)
  }

  /** The reference reading: group k of n weighs 60^(n-1-k), so the rightmost
      group weighs 1 and each group further left 60 times the previous one. */
  function WeightedSum(parts: seq<Option<nat>>): nat {
    if parts == [] then 0
    else OrZero(parts[0]) * Pow60(|parts| - 1) + WeightedSum(parts[1..])
  }

  /** `timeToSeconds(timeStr)` */
  method TimeToSeconds(timeStr: string) returns (seconds: nat)
    ensures seconds == ClockSeconds(timeStr)
    ensures seconds == WeightedSum(Groups(timeStr))
  {
    var parts := Groups(timeStr);
    seconds := PopGroups(parts);
  }

  /** The loop of `timeToSeconds`: pops the groups from the right, adding each
      one times a multiplier that grows by 60 per group. */
  method PopGroups(groups: seq<Option<nat>>) returns (seconds: nat)
    ensures seconds == ClockValue(groups)
    ensures seconds == WeightedSum(groups)
  {
    var parts := groups;
    seconds := 0;
    var multiplier: nat := 1;
    while |parts| > 0
      invariant ClockValue(parts) * multiplier + seconds == ClockValue(groups)
    {
      var last := parts[|parts| - 1];
      ghost var before := ClockValue(parts);
      parts := parts[..|parts| - 1];
      assert before == ClockValue(parts) * 60 + OrZero(last);
      ShiftStep(ClockValue(parts), OrZero(last), multiplier);
      seconds := seconds + OrZero(last) * multiplier;
      multiplier := multiplier * 60;
    }
    ClockValueIsWeightedSum(groups);
  }

  lemma ShiftStep(rest: nat, last: nat, multiplier: nat)
    ensures (rest * 60 + last) * multiplier == rest * (multiplier * 60) + last * multiplier
  {
  }

  lemma {:induction false} WeightedSumAppend(parts: seq<Option<nat>>, x: Option<nat>)
    ensures WeightedSum(parts + [x]) == WeightedSum(parts) * 60 + OrZero(x)
  {
    if parts != [] {
      var n := |parts|;
      WeightedSumAppend(parts[1..], x);
      assert (parts + [x])[1..] == parts[1..] + [x];
      var a := OrZero(parts[0]);
      assert a * Pow60(n) == a * Pow60(n - 1) * 60;
    }
  }

  /** Reading from the right with a growing multiplier and weighing each group
      by its distance from the right end give the same seconds. */
  lemma {:induction false} ClockValueIsWeightedSum(parts: seq<Option<nat>>)
    ensures ClockValue(parts) == WeightedSum(parts)
  {
    if parts != [] {
      var init := parts[..|parts| - 1];
      ClockValueIsWeightedSum(init);
      WeightedSumAppend(init, parts[|parts| - 1]);
      assert init + [parts[|parts| - 1]] == parts;
    }
  }

  lemma GroupsAppend(timeStr: string, group: string)
    requires ':' !in group
    ensures Groups(timeStr + ":" + group) == Groups(timeStr) + [NumberOf(group)]
  {
    SplitAppend(timeStr, group, ':');
    var pieces := Split(timeStr, ':') + [group];
    assert pieces[..|pieces| - 1] == Split(timeStr, ':');
  }

  /** One more group on the right multiplies the earlier groups' value by 60
      and adds the group's own value; a group that is not a number adds 0,
      and never makes the conversion fail. */
  lemma ClockAppendGroup(timeStr: string, group: string)
    requires ':' !in group
    ensures ClockSeconds(timeStr + ":" + group) == ClockSeconds(timeStr) * 60 + OrZero(NumberOf(group))
    ensures NumberOf(group).None? ==> ClockSeconds(timeStr + ":" + group) == ClockSeconds(timeStr) * 60
  {
    GroupsAppend(timeStr, group);
    var g := Groups(timeStr + ":" + group);
    assert g[..|g| - 1] == Groups(timeStr);
  }

  /** A text without ':' is a single group weighing 1. */
  lemma SingleGroup(group: string)
    requires ':' !in group
    ensures ClockSeconds(group) == OrZero(NumberOf(group))
  {
    SplitWithoutSeparator(group, ':');
    assert [group][..0] == [];
    var g := Groups(group);
    assert g == [NumberOf(group)];
    assert g[..0] == [];
  }

  lemma TwoDigits(t: string)
    requires |t| == 2 && t[0] == '0' && IsDigit(t[1])
    ensures NumberOf(t) == Some(t[1] as int - '0' as int)
  {
    assert Trim(t) == t by {
      assert TrimStart(t) == t;
      assert TrimEnd(t) == t;
    }
    assert AllDigits(t);
    var head := t[..1];
    assert head[..0] == [];
    assert DigitsValue(head) == 0;
    assert DigitsValue(t) == DigitsValue(head) * 10 + (t[1] as int - '0' as int);
  }

  lemma OneDigit(t: string)
    requires |t| == 1 && IsDigit(t[0])
    ensures NumberOf(t) == Some(t[0] as int - '0' as int)
  {
    assert Trim(t) == t by {
      assert TrimStart(t) == t;
      assert TrimEnd(t) == t;
    }
    assert AllDigits(t);
    assert t[..0] == [];
    assert DigitsValue(t) == DigitsValue(t[..0]) * 10 + (t[0] as int - '0' as int);
  }

  // The examples below name their text by a variable: written as a literal
  // argument, the verifier would evaluate Split and Trim on it eagerly.

  /** "1:02:03" is one hour, two minutes and three seconds. */
  lemma HoursMinutesSeconds(s: string)
    requires s == "1:02:03"
    ensures ClockSeconds(s) == 3723
  {
    var h, m, sec := s[..1], s[2..4], s[5..];
    assert ClockSeconds(h) == 1 by {
      OneDigit(h);
      SingleGroup(h);
    }
    var hm := s[..4];
    assert hm == h + ":" + m;
    assert ClockSeconds(hm) == 62 by {
      TwoDigits(m);
      ClockAppendGroup(h, m);
    }
    assert s == hm + ":" + sec;
    TwoDigits(sec);
    ClockAppendGroup(hm, sec);
  }

  /** "0:09" is nine seconds. */
  lemma MinutesSeconds(s: string)
    requires s == "0:09"
    ensures ClockSeconds(s) == 9
  {
    var m, sec := s[..1], s[2..];
    assert ClockSeconds(m) == 0 by {
      OneDigit(m);
      SingleGroup(m);
    }
    assert s == m + ":" + sec;
    TwoDigits(sec);
    ClockAppendGroup(m, sec);
  }

  /** The empty text is 0 seconds. */
  lemma EmptyClock(s: string)
    requires s == ""
    ensures ClockSeconds(s) == 0
  {
    assert IsBlank(s) by {
      TrimEmpty(s);
    }
    SingleGroup(s);
  }

  /** A group that is not a number counts as 0 instead of failing:
      "ab:09" is nine seconds. */
  lemma NonNumericGroup(s: string)
    requires s == "ab:09"
    ensures ClockSeconds(s) == 9
  {
    var m, sec := s[..2], s[3..];
    assert ClockSeconds(m) == 0 by {
      assert NumberOf(m) == None by {
        assert Trim(m) == m by {
          assert TrimStart(m) == m;
          assert TrimEnd(m) == m;
        }
        assert !IsDigit(m[0]);
      }
      SingleGroup(m);
    }
    assert s == m + ":" + sec;
    TwoDigits(sec);
    ClockAppendGroup(m, sec);
  }
}
