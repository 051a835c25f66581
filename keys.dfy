/**
 * Key parsing (`_parse_index_name`): the fields that an array key of the
 * OS-Climate hazard store encodes. The key is matched, from its first
 * character and not necessarily to its last, against
 *
 *     .*_([0-9]+\.?[0-9]+)c_([a-zA-Z0-9-]+)_([a-zA-Z0-9]+)_(\d+)*.*
 *
 * The greedy `.*` makes the match start at the rightmost `_` from which the
 * rest of the pattern matches; `.` does not match a newline, so the part of the
 * key before that `_` holds none. From that `_` on, every group is the longest
 * run of its character class, because the character the pattern requires
 * right after the group lies outside the class.
 */
module Keys {
  import opened Wrappers
  import opened Strings

  /** The fields of one source array. Its time is 1 January of `year`. */
  datatype IndexRecord = IndexRecord(temperature: real, gcm: string, scenario: string, year: int)

  datatype ParseError =
    | NoMatch                    // the pattern does not match: ValueError
    | MissingYear                // the optional year group matched nothing: int(None) raises TypeError
    | YearOutOfRange(year: nat)  // datetime(year, 1, 1) accepts years 1..9999 only: ValueError

  const MIN_YEAR: int := 1
  const MAX_YEAR: int := 9999

  /** The character classes of the pattern's four groups. */
  datatype CharClass = TemperatureChars | GcmChars | ScenarioChars | YearDigits

  predicate InClass(c: char, cls: CharClass)
  {
    match cls
    case TemperatureChars => IsDigit(c) || c == '.'
    case GcmChars => IsAsciiLetter(c) || IsDigit(c) || c == '-'
    case ScenarioChars => IsAsciiLetter(c) || IsDigit(c)
    case YearDigits => IsDigit(c)
  }

  /** `[cls]+`: a non-empty string drawn from one class. */
  predicate IsToken(t: string, cls: CharClass)
  {
    |t| > 0 && forall k :: 0 <= k < |t| ==> InClass(t[k], cls)
  }

  /** `[0-9]+\.?[0-9]+`: two or more digits, possibly split by one '.' with digits on both sides. */
  predicate IsTemperatureToken(t: string)
  {
    || (|t| >= 2 && AllDigits(t))
    || (exists d | 0 < d < |t| - 1 :: t[d] == '.' && AllDigits(t[..d]) && AllDigits(t[d + 1..]))
  }

  /** The end of the longest run of `cls` characters that starts at `i`. */
  function RunEnd(s: string, i: nat, cls: CharClass): (j: nat)
    requires i <= |s|
    ensures i <= j <= |s|
    ensures forall k :: i <= k < j ==> InClass(s[k], cls)
    ensures j < |s| ==> !InClass(s[j], cls)
    decreases |s| - i
  {
    if i < |s| && InClass(s[i], cls) then RunEnd(s, i + 1, cls) else i
  }

  /** A run of `cls` characters followed by a character outside the class is the longest run. */
  lemma RunEndUnique(s: string, i: nat, j: nat, cls: CharClass)
    requires i <= j <= |s|
    requires forall k :: i <= k < j ==> InClass(s[k], cls)
    requires j < |s| ==> !InClass(s[j], cls)
    ensures RunEnd(s, i, cls) == j
  {
  }

  /** A slice drawn from one class and followed by a character outside it is the longest run. */
  lemma SliceRunEnd(s: string, i: nat, j: nat, cls: CharClass)
    requires i <= j <= |s|
    requires forall k :: 0 <= k < j - i ==> InClass(s[i..j][k], cls)
    requires j < |s| ==> !InClass(s[j], cls)
    ensures RunEnd(s, i, cls) == j
  {
    forall k | i <= k < j ensures InClass(s[k], cls) {
      assert s[i..j][k - i] == s[k];
    }
    RunEndUnique(s, i, j, cls);
  }

  lemma TemperatureTokenChars(t: string)
    requires IsTemperatureToken(t)
    ensures IsToken(t, TemperatureChars)
  {
    if !(|t| >= 2 && AllDigits(t)) {
      var d :| 0 < d < |t| - 1 && t[d] == '.' && AllDigits(t[..d]) && AllDigits(t[d + 1..]);
      forall k | 0 <= k < |t| ensures InClass(t[k], TemperatureChars) {
        if k < d {
          assert t[..d][k] == t[k];
        } else if k > d {
          assert t[d + 1..][k - d - 1] == t[k];
        }
      }
    }
  }

  /** The position of the first '.' in `t`, or `|t|` when there is none. */
  function DotIndex(t: string): (d: nat)
    ensures d <= |t| && (d < |t| ==> t[d] == '.')
    ensures forall k :: 0 <= k < d ==> t[k] != '.'
  {
    if t == [] || t[0] == '.' then 0 else 1 + DotIndex(t[1..])
  }

  /** The first '.' is the one that no earlier '.' precedes. */
  lemma DotIndexUnique(t: string, d: nat)
    requires d <= |t| && (d < |t| ==> t[d] == '.')
    requires forall k :: 0 <= k < d ==> t[k] != '.'
    ensures DotIndex(t) == d
  {
  }

  lemma TemperatureTokenParts(t: string)
    requires IsTemperatureToken(t)
    ensures var d := DotIndex(t);
      && 0 < d && AllDigits(t[..d])
      && (d < |t| ==> d + 1 < |t| && AllDigits(t[d + 1..]))
  {
    if |t| >= 2 && AllDigits(t) {
      DotIndexUnique(t, |t|);
      assert t[..|t|] == t;
    } else {
      var e :| 0 < e < |t| - 1 && t[e] == '.' && AllDigits(t[..e]) && AllDigits(t[e + 1..]);
      forall k | 0 <= k < e ensures t[k] != '.' {
        assert IsDigit(t[..e][k]);
      }
      DotIndexUnique(t, e);
    }
  }

  /** The digits of a temperature token, its '.' left out. */
  function Undotted(t: string): string
  {
    var d := DotIndex(t);
    if d < |t| then t[..d] + t[d + 1..] else t
  }

  /** How many digits of a temperature token follow its '.'. */
  function FractionDigits(t: string): nat
  {
    var d := DotIndex(t);
    if d < |t| then |t| - d - 1 else 0
  }

  /** `float(t)` for a temperature token, as the exact decimal number it spells. */
  function DecimalValue(t: string): real
    requires IsTemperatureToken(t)
  {
    TemperatureTokenParts(t);
    var d := DotIndex(t);
    var whole := DigitsValue(t[..d]) as real;
    if d == |t| then whole
    else whole + DigitsValue(t[d + 1..]) as real / Pow10(|t| - d - 1) as real
  }

  /**
   * What `float` reads from a temperature token: scaled by ten to the number
   * of fraction digits, the value is the integer the token's digits spell
   * once the '.' is left out.
   */
  lemma DecimalValueScaled(t: string)
    requires IsTemperatureToken(t)
    ensures AllDigits(Undotted(t))
    ensures Scaled(DecimalValue(t), Pow10(FractionDigits(t)), DigitsValue(Undotted(t)))
  {
    TemperatureTokenParts(t);
    var d := DotIndex(t);
    if d == |t| {
      assert t[..d] == t && Undotted(t) == t && FractionDigits(t) == 0;
      ScaledFraction(DigitsValue(t), 0, Pow10(FractionDigits(t)), DigitsValue(Undotted(t)), DecimalValue(t));
    } else {
      var frac := t[d + 1..];
      DigitsValueConcat(t[..d], frac);
      assert Undotted(t) == t[..d] + frac;
      assert FractionDigits(t) == |frac|;
      ScaledFraction(DigitsValue(t[..d]), DigitsValue(frac), Pow10(FractionDigits(t)), DigitsValue(Undotted(t)), DecimalValue(t));
    }
  }

  /** `v` times `p` is the integer `n`: `v` is `n` divided by `p`. */
  predicate Scaled(v: real, p: nat, n: nat)
  {
    v * p as real == n as real
  }

  /** Scaling `w + f / p` by `p` gives the integer `w * p + f`. */
  lemma ScaledFraction(w: nat, f: nat, p: nat, n: nat, v: real)
    requires p >= 1 && n == w * p + f && v == w as real + f as real / p as real
    ensures Scaled(v, p, n)
  {
  }

  /** The four groups of the pattern; the year group is empty when `(\d+)*` matched nothing. */
  datatype Captures = Captures(temperature: string, gcm: string, scenario: string, year: string)

  /**
   * Whether the rest of the pattern matches when its `_` is the character at
   * position `i` of `key`, and with which groups.
   */
  function MatchAt(key: string, i: nat): (m: Option<Captures>)
    ensures m.Some? ==> IsTemperatureToken(m.value.temperature)
    ensures m.Some? ==> IsToken(m.value.gcm, GcmChars) && IsToken(m.value.scenario, ScenarioChars)
    ensures m.Some? ==> AllDigits(m.value.year)
  {
    if !(i < |key| && key[i] == '_' && '\n' !in key[..i]) then None
    else
      var a := RunEnd(key, i + 1, TemperatureChars);
      if !(IsTemperatureToken(key[i + 1..a]) && a + 1 < |key| && key[a] == 'c' && key[a + 1] == '_') then None
      else
        var b := RunEnd(key, a + 2, GcmChars);
        if !(a + 2 < b < |key| && key[b] == '_') then None
        else
          var c := RunEnd(key, b + 1, ScenarioChars);
          if !(b + 1 < c < |key| && key[c] == '_') then None
          else
            var e := RunEnd(key, c + 1, YearDigits);
            Some(Captures(key[i + 1..a], key[a + 2..b], key[b + 1..c], key[c + 1..e]))
  }

  /** The rightmost position below `n` from which the pattern's `_` matches: the greedy `.*`. */
  function LastMatch(key: string, n: nat): (r: Option<nat>)
    ensures r.Some? ==> r.value < n && MatchAt(key, r.value).Some?
    ensures r.Some? ==> forall j :: r.value < j < n ==> MatchAt(key, j).None?
    ensures r.None? ==> forall j :: 0 <= j < n ==> MatchAt(key, j).None?
  {
    if n == 0 then None
    else if MatchAt(key, n - 1).Some? then Some(n - 1)
    else LastMatch(key, n - 1)
  }

  /** The dict built from the groups: `float(temperature)`, the two names, `datetime(int(year), 1, 1)`. */
  function ToRecord(m: Captures): (r: Result<IndexRecord, ParseError>)
    requires IsTemperatureToken(m.temperature) && AllDigits(m.year)
    ensures r == Err(MissingYear) <==> m.year == []
    ensures r.Ok? <==> m.year != [] && MIN_YEAR <= DigitsValue(m.year) <= MAX_YEAR
    ensures r.Err? && m.year != [] ==> r.error == YearOutOfRange(DigitsValue(m.year))
    ensures r.Ok? ==> r.value == IndexRecord(DecimalValue(m.temperature), m.gcm, m.scenario, DigitsValue(m.year))
  {
    if m.year == [] then Err(MissingYear)
    else
      var y := DigitsValue(m.year);
      if MIN_YEAR <= y <= MAX_YEAR then Ok(IndexRecord(DecimalValue(m.temperature), m.gcm, m.scenario, y))
      else Err(YearOutOfRange(y))
  }

  /** `_parse_index_name(key)`: the record the key encodes, or the error the source raises. */
  function ParseIndexName(key: string): (r: Result<IndexRecord, ParseError>)
    ensures r.Ok? ==> MIN_YEAR <= r.value.year <= MAX_YEAR
    ensures r.Ok? ==> IsToken(r.value.gcm, GcmChars) && IsToken(r.value.scenario, ScenarioChars)
  {
    match LastMatch(key, |key|)
    case None => Err(NoMatch)
    case Some(i) => ToRecord(MatchAt(key, i).value)
  }

  /**
   * The pattern's shape, stated without runs: the `_` at `i`, a temperature
   * token up to `a`, then "c_", a gcm token up to `b`, "_", a scenario token
   * up to `c` and "_".
   */
  predicate Shaped(key: string, i: nat, a: nat, b: nat, c: nat)
  {
    && i < a && a + 2 < b && b + 1 < c < |key|
    && key[i] == '_' && '\n' !in key[..i]
    && IsTemperatureToken(key[i + 1..a]) && key[a] == 'c' && key[a + 1] == '_'
    && IsToken(key[a + 2..b], GcmChars) && key[b] == '_'
    && IsToken(key[b + 1..c], ScenarioChars) && key[c] == '_'
  }

  /** Where the shape holds, the pattern matches there, with the shape's pieces as its groups. */
  lemma ShapedDeterminesMatch(key: string, i: nat, a: nat, b: nat, c: nat)
    requires Shaped(key, i, a, b, c)
    ensures MatchAt(key, i)
         == Some(Captures(key[i + 1..a], key[a + 2..b], key[b + 1..c], key[c + 1..RunEnd(key, c + 1, YearDigits)]))
  {
    TemperatureTokenChars(key[i + 1..a]);
    SliceRunEnd(key, i + 1, a, TemperatureChars);
    SliceRunEnd(key, a + 2, b, GcmChars);
    SliceRunEnd(key, b + 1, c, ScenarioChars);
    MatchAtRuns(key, i, a, b, c);
  }

  /** MatchAt's own steps, with the ends of the runs given. */
  lemma MatchAtRuns(key: string, i: nat, a: nat, b: nat, c: nat)
    requires i < a && a + 2 < b && b + 1 < c < |key|
    requires key[i] == '_' && '\n' !in key[..i]
    requires RunEnd(key, i + 1, TemperatureChars) == a && IsTemperatureToken(key[i + 1..a])
    requires key[a] == 'c' && key[a + 1] == '_'
    requires RunEnd(key, a + 2, GcmChars) == b && key[b] == '_'
    requires RunEnd(key, b + 1, ScenarioChars) == c && key[c] == '_'
    ensures MatchAt(key, i)
         == Some(Captures(key[i + 1..a], key[a + 2..b], key[b + 1..c], key[c + 1..RunEnd(key, c + 1, YearDigits)]))
  {
  }

  /** Where the pattern matches, its shape holds. */
  lemma MatchIsShaped(key: string, i: nat)
    requires MatchAt(key, i).Some?
    ensures exists a, b, c :: Shaped(key, i, a, b, c)
  {
    var a := RunEnd(key, i + 1, TemperatureChars);
    var b := RunEnd(key, a + 2, GcmChars);
    var c := RunEnd(key, b + 1, ScenarioChars);
    assert Shaped(key, i, a, b, c);
  }

  /** A key is rejected with NoMatch exactly when no `_` in it starts the pattern's shape. */
  lemma ParseMatchesIffShaped(key: string)
    ensures ParseIndexName(key) != Err(NoMatch) <==> exists i, a, b, c :: Shaped(key, i, a, b, c)
  {
    match LastMatch(key, |key|)
    case None =>
      if exists i, a, b, c :: Shaped(key, i, a, b, c) {
        var i, a, b, c :| Shaped(key, i, a, b, c);
        ShapedDeterminesMatch(key, i, a, b, c);
      }
    case Some(i) =>
      MatchIsShaped(key, i);
  }

  /**
   * The groups come from the rightmost `_` that starts the shape: the record
   * is built from the pieces found there.
   */
  lemma ParseUsesRightmostShape(key: string, i: nat, a: nat, b: nat, c: nat)
    requires Shaped(key, i, a, b, c)
    requires forall j, a', b', c' :: i < j ==> !Shaped(key, j, a', b', c')
    ensures ParseIndexName(key)
         == ToRecord(Captures(key[i + 1..a], key[a + 2..b], key[b + 1..c], key[c + 1..RunEnd(key, c + 1, YearDigits)]))
  {
    ShapedDeterminesMatch(key, i, a, b, c);
    var r := LastMatch(key, |key|);
    assert r.Some?;
    if r.value > i {
      MatchIsShaped(key, r.value);
    }
    assert r.value == i;
  }

  /** The key a store writer produces for the given fields. */
  function FormatKey(prefix: string, t: string, g: string, s: string, y: string, rest: string): string
  {
    prefix + "_" + t + "c_" + g + "_" + s + "_" + y + rest
  }

  /** Where each piece of a formatted key lies in it. */
  lemma FormatKeyLayout(key: string, prefix: string, t: string, g: string, s: string, y: string, rest: string,
                        a: nat, b: nat, c: nat, e: nat)
    requires key == FormatKey(prefix, t, g, s, y, rest)
    requires a == |prefix| + 1 + |t| && b == a + 2 + |g| && c == b + 1 + |s| && e == c + 1 + |y|
    ensures |key| == e + |rest|
    ensures key[..|prefix|] == prefix && key[|prefix|] == '_'
    ensures key[|prefix| + 1..a] == t && key[a] == 'c' && key[a + 1] == '_'
    ensures key[a + 2..b] == g && key[b] == '_' && key[b + 1..c] == s && key[c] == '_'
    ensures key[c + 1..e] == y && key[e..] == rest
  {
    var k1 := prefix + "_";
    var k2 := k1 + t;
    var k3 := k2 + "c_";
    var k4 := k3 + g;
    var k5 := k4 + "_";
    var k6 := k5 + s;
    var k7 := k6 + "_";
    var k8 := k7 + y;
    assert key == k8 + rest;
    assert key[..|k8|] == k8 && key[|k8|..] == rest;
    assert k8[..|k7|] == k7 && k8[|k7|..] == y;
    assert k7[..|k6|] == k6;
    assert k6[..|k5|] == k5 && k6[|k5|..] == s;
    assert k5[..|k4|] == k4;
    assert k4[..|k3|] == k3 && k4[|k3|..] == g;
    assert k3[..|k2|] == k2;
    assert k2[..|k1|] == k1 && k2[|k1|..] == t;
    assert k1[..|prefix|] == prefix;
    assert key[..|k7|] == k7 && key[..|k6|] == k6 && key[..|k5|] == k5;
    assert key[..|k4|] == k4 && key[..|k3|] == k3 && key[..|k2|] == k2 && key[..|k1|] == k1;
    assert key[|k7|..|k8|] == k8[|k7|..];
    assert key[|k5|..|k6|] == k6[|k5|..];
    assert key[|k3|..|k4|] == k4[|k3|..];
    assert key[|k1|..|k2|] == k2[|k1|..];
    assert key[..|prefix|] == k1[..|prefix|];
  }

  /** The shape needs three underscores after its first one, so it cannot start where fewer follow. */
  lemma NoShapeAfter(key: string, i: nat, u1: nat, u2: nat, u3: nat)
    requires forall k :: i < k < |key| && key[k] == '_' ==> k == u1 || k == u2 || k == u3
    requires u1 < u2 < u3
    ensures forall j, a, b, c :: i < j ==> !Shaped(key, j, a, b, c)
  {
    forall j: nat, a: nat, b: nat, c: nat | i < j && Shaped(key, j, a, b, c) ensures false {
    }
  }

  /** No shape starts after one whose year digits are followed by a tail without `_`. */
  lemma ShapeIsRightmost(key: string, i: nat, a: nat, b: nat, c: nat, e: nat, rest: string)
    requires Shaped(key, i, a, b, c) && c < e <= |key|
    requires AllDigits(key[c + 1..e]) && key[e..] == rest && '_' !in rest
    ensures forall j, a', b', c' :: i < j ==> !Shaped(key, j, a', b', c')
  {
    // after `i`, the only underscores are those at a + 1, b and c
    TemperatureTokenChars(key[i + 1..a]);
    forall k | i < k < |key| && key[k] == '_' ensures k == a + 1 || k == b || k == c {
    }
    NoShapeAfter(key, i, a + 1, b, c);
  }

  /**
   * A key with the pattern's shape at `i`, year digits up to `e` and neither a
   * `_` nor a digit after them parses to the record its pieces spell.
   */
  lemma ParseShapedKey(key: string, i: nat, a: nat, b: nat, c: nat, e: nat, t: string, g: string, sc: string, y: string, rest: string)
    requires Shaped(key, i, a, b, c) && c < e <= |key|
    requires key[i + 1..a] == t && key[a + 2..b] == g && key[b + 1..c] == sc && key[c + 1..e] == y
    requires AllDigits(y) && MIN_YEAR <= DigitsValue(y) <= MAX_YEAR
    requires key[e..] == rest && '_' !in rest && (rest == [] || !IsDigit(rest[0]))
    ensures IsTemperatureToken(t)
    ensures ParseIndexName(key) == Ok(IndexRecord(DecimalValue(t), g, sc, DigitsValue(y)))
  {
    // the year digits end at `e`
    if e < |key| {
      assert key[e] == key[e..][0];
    }
    SliceRunEnd(key, c + 1, e, YearDigits);

    ShapeIsRightmost(key, i, a, b, c, e, rest);
    ParseUsesRightmostShape(key, i, a, b, c);
  }

  lemma LaidOutIsShaped(key: string, prefix: string, t: string, g: string, s: string, a: nat, b: nat, c: nat)
    requires '\n' !in prefix
    requires IsTemperatureToken(t) && IsToken(g, GcmChars) && IsToken(s, ScenarioChars)
    requires a == |prefix| + 1 + |t| && b == a + 2 + |g| && c == b + 1 + |s| && c < |key|
    requires key[..|prefix|] == prefix && key[|prefix|] == '_'
    requires key[|prefix| + 1..a] == t && key[a] == 'c' && key[a + 1] == '_'
    requires key[a + 2..b] == g && key[b] == '_' && key[b + 1..c] == s && key[c] == '_'
    ensures Shaped(key, |prefix|, a, b, c)
  {
  }

  /** A key laid out as `prefix_<t>c_<g>_<s>_<y><rest>` parses to the record of its pieces. */
  lemma ParseLaidOutKey(key: string, prefix: string, t: string, g: string, s: string, y: string, rest: string,
                        a: nat, b: nat, c: nat, e: nat)
    requires '\n' !in prefix
    requires IsTemperatureToken(t) && IsToken(g, GcmChars) && IsToken(s, ScenarioChars)
    requires AllDigits(y) && MIN_YEAR <= DigitsValue(y) <= MAX_YEAR
    requires '_' !in rest && (rest == [] || !IsDigit(rest[0]))
    requires a == |prefix| + 1 + |t| && b == a + 2 + |g| && c == b + 1 + |s| && e == c + 1 + |y| && e <= |key|
    requires key[..|prefix|] == prefix && key[|prefix|] == '_'
    requires key[|prefix| + 1..a] == t && key[a] == 'c' && key[a + 1] == '_'
    requires key[a + 2..b] == g && key[b] == '_' && key[b + 1..c] == s && key[c] == '_'
    requires key[c + 1..e] == y && key[e..] == rest
    ensures ParseIndexName(key) == Ok(IndexRecord(DecimalValue(t), g, s, DigitsValue(y)))
  {
    LaidOutIsShaped(key, prefix, t, g, s, a, b, c);
    ParseShapedKey(key, |prefix|, a, b, c, e, t, g, s, y, rest);
  }

  /**
   * Round trip: parsing a key written as `prefix_<t>c_<g>_<s>_<y><rest>` gives
   * back the value of `t`, `g`, `s` and the year `y` spells, provided the tail
   * neither holds a `_` nor extends the year's digits.
   */
  lemma ParseFormattedKey(prefix: string, t: string, g: string, s: string, y: string, rest: string)
    requires '\n' !in prefix
    requires IsTemperatureToken(t) && IsToken(g, GcmChars) && IsToken(s, ScenarioChars)
    requires y != [] && AllDigits(y) && MIN_YEAR <= DigitsValue(y) <= MAX_YEAR
    requires '_' !in rest && (rest == [] || !IsDigit(rest[0]))
    ensures ParseIndexName(FormatKey(prefix, t, g, s, y, rest))
         == Ok(IndexRecord(DecimalValue(t), g, s, DigitsValue(y)))
  {
    var key := FormatKey(prefix, t, g, s, y, rest);
    var a := |prefix| + 1 + |t|;
    var b := a + 2 + |g|;
    var c := b + 1 + |s|;
    var e := c + 1 + |y|;
    FormatKeyLayout(key, prefix, t, g, s, y, rest, a, b, c, e);
    ParseLaidOutKey(key, prefix, t, g, s, y, rest, a, b, c, e);
  }
}
