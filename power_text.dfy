/** The textual clean-up applied to the controller's power reading before it is
    published: every "Watts" is removed in one left-to-right pass (Python's
    str.replace), then surrounding whitespace is removed (Python's str.strip). */
module PowerText {

  /** The unit token the exporter removes from the reading. */
  const Unit: string := "Watts"

  /** The characters for which Python's str.isspace() holds; str.strip()
      with no argument removes exactly these. */
  predicate IsSpace(c: char) {
    || c == ' '
    || '\t' <= c <= '\r'
    || '\U{1c}' <= c <= '\U{1f}'
    || c == '\U{85}' || c == '\U{a0}' || c == '\U{1680}'
    || '\U{2000}' <= c <= '\U{200a}'
    || c == '\U{2028}' || c == '\U{2029}' || c == '\U{202f}'
    || c == '\U{205f}' || c == '\U{3000}'
  }

  predicate AllSpace(s: string) {
    forall k :: 0 <= k < |s| ==> IsSpace(s[k])
  }

  /** The unit token starts at index i of s. */
  predicate UnitAt(s: string, i: int) {
    0 <= i && i + |Unit| <= |s| && s[i..i + |Unit|] == Unit
  }

  /** s holds no occurrence of the unit token. */
  predicate NoUnit(s: string) {
    forall i :: 0 <= i <= |s| ==> !UnitAt(s, i)
  }

  /** s.replace("Watts", ""): scan from the left; at each position either a
      whole token is dropped or one character is kept. */
  function DropUnit(s: string): (r: string)
    ensures |r| <= |s|
    ensures (|s| - |r|) % |Unit| == 0
    ensures NoUnit(s) ==> r == s
    decreases |s|
  {
    if |s| < |Unit| then s
    else if s[..|Unit|] == Unit then
      assert UnitAt(s, 0);
      DropUnit(s[|Unit|..])
    else
      var rest := DropUnit(s[1..]);
      assert NoUnit(s) ==> NoUnit(s[1..]) by {
        if NoUnit(s) {
          NoUnitTail(s);
        }
      }
      [s[0]] + rest
  }

  /** s.strip()'s left half: drop leading whitespace. */
  function TrimLeft(s: string): (r: string)
    ensures |r| <= |s| && r == s[|s| - |r|..]
    ensures AllSpace(s[..|s| - |r|])
    ensures r == [] || !IsSpace(r[0])
  {
    if s != [] && IsSpace(s[0]) then
      var r := TrimLeft(s[1..]);
      assert s[..|s| - |r|] == [s[0]] + s[1..][..|s| - 1 - |r|];
      r
    else s
  }

  /** s.strip()'s right half: drop trailing whitespace. */
  function TrimRight(s: string): (r: string)
    ensures |r| <= |s| && r == s[..|r|]
    ensures AllSpace(s[|r|..])
    ensures r == [] || !IsSpace(r[|r| - 1])
  {
    if s != [] && IsSpace(s[|s| - 1]) then
      var r := TrimRight(s[..|s| - 1]);
      assert s[|r|..] == s[..|s| - 1][|r|..] + [s[|s| - 1]];
      r
    else s
  }

  /** s is r with whitespace only before it (the first i characters) and
      whitespace only after it. */
  predicate PaddedAt(s: string, i: int, r: string) {
    0 <= i <= |s| - |r| && s[i..i + |r|] == r && AllSpace(s[..i]) && AllSpace(s[i + |r|..])
  }

  /** s.strip(): s is the result padded on both sides by whitespace only, and
      the result neither starts nor ends with whitespace. */
  function Strip(s: string): (r: string)
    ensures r == [] || (!IsSpace(r[0]) && !IsSpace(r[|r| - 1]))
    ensures exists i :: PaddedAt(s, i, r)
  {
    var l := TrimLeft(s);
    var r := TrimRight(l);
    var i := |s| - |l|;
    assert s[i..i + |r|] == r;
    assert s[i + |r|..] == l[|r|..];
    assert PaddedAt(s, i, r);
    r
  }

  /** The value that is handed to the power gauge (Server.py line 63). */
  function PowerReading(s: string): (r: string)
    ensures r == [] || (!IsSpace(r[0]) && !IsSpace(r[|r| - 1]))
    ensures NoUnit(s) ==> exists i :: PaddedAt(s, i, r)
  {
    var d := DropUnit(s);
    assert NoUnit(s) ==> d == s;
    Strip(d)
  }

  lemma {:induction false} TrimLeftPadded(a: string, t: string)
    requires AllSpace(a) && (t == [] || !IsSpace(t[0]))
    ensures TrimLeft(a + t) == t
    decreases |a|
  {
    if a != [] {
      assert (a + t)[1..] == a[1..] + t;
      TrimLeftPadded(a[1..], t);
    }
  }

  lemma {:induction false} TrimRightPadded(t: string, b: string)
    requires AllSpace(b) && (t == [] || !IsSpace(t[|t| - 1]))
    ensures TrimRight(t + b) == t
    decreases |b|
  {
    if b != [] {
      assert (t + b)[..|t + b| - 1] == t + b[..|b| - 1];
      TrimRightPadded(t, b[..|b| - 1]);
    }
  }

  /** Strip is determined by what it must return: any text that neither starts
      nor ends with whitespace comes back unchanged from any whitespace padding. */
  lemma StripPadded(a: string, m: string, b: string)
    requires AllSpace(a) && AllSpace(b)
    requires m == [] || (!IsSpace(m[0]) && !IsSpace(m[|m| - 1]))
    ensures Strip(a + m + b) == m
  {
    if m == [] {
      assert a + m + b == (a + b) + [];
      assert AllSpace(a + b);
      TrimLeftPadded(a + b, []);
    } else {
      assert a + m + b == a + (m + b);
      TrimLeftPadded(a, m + b);
      TrimRightPadded(m, b);
    }
  }

  lemma NoUnitWithoutW(s: string)
    requires 'W' !in s
    ensures NoUnit(s)
  {
    forall i | 0 <= i <= |s| ensures !UnitAt(s, i) {
      if i + |Unit| <= |s| {
        assert s[i] in s;
        assert s[i..i + |Unit|][0] != Unit[0];
      }
    }
  }

  /** Appending the unit token adds nothing to the result: the token has no
      proper prefix that is also a suffix, so no earlier match can run into it. */
  lemma {:induction false} DropUnitAppend(s: string)
    ensures DropUnit(s + Unit) == DropUnit(s)
    decreases |s|
  {
    var t := s + Unit;
    if s == [] {
      assert t == Unit + [];
      DropUnitAtFront([]);
    } else if |s| >= |Unit| && s[..|Unit|] == Unit {
      calc {
        DropUnit(t);
        == { assert t[..|Unit|] == Unit && t[|Unit|..] == s[|Unit|..] + Unit; }
        DropUnit(s[|Unit|..] + Unit);
        == { DropUnitAppend(s[|Unit|..]); }
        DropUnit(s[|Unit|..]);
      }
    } else {
      calc {
        DropUnit(t);
        == { if |s| >= |Unit| {
               assert t[..|Unit|] == s[..|Unit|];
             } else {
               assert t[|s|] == 'W';
               assert t[..|Unit|][|s|] != Unit[|s|];
             }
             assert t[1..] == s[1..] + Unit; }
        [s[0]] + DropUnit(s[1..] + Unit);
        == { DropUnitAppend(s[1..]); }
        [s[0]] + DropUnit(s[1..]);
        == { if |s| < |Unit| { assert [s[0]] + s[1..] == s; } }
        DropUnit(s);
      }
    }
  }

  lemma NoUnitTail(p: string)
    requires p != [] && NoUnit(p)
    ensures NoUnit(p[1..])
  {
    forall i | 0 <= i <= |p| - 1 ensures !UnitAt(p[1..], i) {
      if UnitAt(p[1..], i) {
        assert p[1..][i..i + |Unit|] == p[i + 1..i + 1 + |Unit|];
        assert UnitAt(p, i + 1);
      }
    }
  }

  /** No token starts at the front of p + Unit + t when p is non-empty and
      holds none: a token overlapping the appended one would need a second
      'W' inside it. */
  lemma NoUnitInFront(p: string, t: string)
    requires p != [] && NoUnit(p)
    ensures (p + Unit + t)[..|Unit|] != Unit
  {
    var s := p + Unit + t;
    if |p| >= |Unit| {
      assert !UnitAt(p, 0);
      assert s[..|Unit|] == p[..|Unit|];
    } else {
      assert s[|p|] == 'W';
      assert s[..|Unit|][|p|] != Unit[|p|];
    }
  }

  /** A token at the front is removed and the scan resumes after it. */
  lemma DropUnitAtFront(t: string)
    ensures DropUnit(Unit + t) == DropUnit(t)
  {
    var s := Unit + t;
    assert s[..|Unit|] == Unit && s[|Unit|..] == t;
  }

  /** Text that starts with a character outside any token: that character is
      kept and the scan moves on by one. */
  lemma DropUnitKeepsFront(p: string, t: string)
    requires p != [] && NoUnit(p)
    ensures DropUnit(p + Unit + t) == [p[0]] + DropUnit(p[1..] + Unit + t)
  {
    var s := p + Unit + t;
    NoUnitInFront(p, t);
    assert s[1..] == p[1..] + Unit + t;
  }

  /** The leftmost token is the one removed, and the scan resumes right after
      it: text before the first token is kept as it is. Together with
      DropUnit's contract for text without a token, this determines the whole
      result. */
  lemma {:induction false} DropUnitFirst(p: string, t: string)
    requires NoUnit(p)
    ensures DropUnit(p + Unit + t) == p + DropUnit(t)
    decreases |p|
  {
    if p == [] {
      assert p + Unit + t == Unit + t;
      DropUnitAtFront(t);
    } else {
      var rest := p[1..];
      calc {
        DropUnit(p + Unit + t);
        == { DropUnitKeepsFront(p, t); }
        [p[0]] + DropUnit(rest + Unit + t);
        == { NoUnitTail(p); DropUnitFirst(rest, t); }
        [p[0]] + (rest + DropUnit(t));
        == { assert [p[0]] + rest == p; }
        p + DropUnit(t);
      }
    }
  }

  /** A reading such as "275 Watts" is published as "275": the number, with
      any whitespace around it, followed by the unit. */
  lemma PowerReadingOfQuantity(a: string, d: string, b: string)
    requires AllSpace(a) && AllSpace(b) && 'W' !in d
    requires d == [] || (!IsSpace(d[0]) && !IsSpace(d[|d| - 1]))
    ensures PowerReading(a + d + b + Unit) == d
  {
    var s := a + d + b;
    forall k | 0 <= k < |s| ensures s[k] != 'W' {
      if k < |a| { assert IsSpace(a[k]); }
      else if k >= |a| + |d| { assert IsSpace(b[k - |a| - |d|]); }
      else { assert d[k - |a|] in d; }
    }
    DropUnitAppend(s);
    NoUnitWithoutW(s);
    StripPadded(a, d, b);
  }

  lemma ReadingExample()
    ensures PowerReading("275 Watts") == "275"
  {
    assert "275 Watts" == "" + "275" + " " + Unit;
    PowerReadingOfQuantity("", "275", " ");
  }

  /** One pass only: a token that the removal itself brings together stays. */
  lemma DropUnitSinglePass()
    ensures DropUnit("WWattsatts") == "Watts"
  {
  }
}
