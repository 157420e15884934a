/**
 deploy/cli/cost_report.py: the numbering of repeated actions in `prepare_report_data`, `split_action`, and the
 row order of `report_data_to_markdown`. Names are taken after `.lower().strip()`; characters are ASCII.
 */
module ActionNames {
  import opened Wrappers
  import opened Characters

  // ---------------------------------------------------------------- decimal numbers

  /** str(n). */
  function Decimal(n: nat): (s: string)
    ensures s != "" && forall i | 0 <= i < |s| :: IsDigit(s[i])
  {
    var digit := ('0' as int + n % 10) as char;
    if n < 10 then [digit] else Decimal(n / 10) + [digit]
  }

  /** int(s) for a string of digits. */
  function ParseInt(s: string): nat
    requires forall i | 0 <= i < |s| :: IsDigit(s[i])
  {
    if s == "" then 0 else
    assert IsDigit(s[|s| - 1]);
    10 * ParseInt(s[..|s| - 1]) + (s[|s| - 1] as int - '0' as int)
  }

  lemma {:induction false} ParseDecimal(n: nat)
    ensures ParseInt(Decimal(n)) == n
  {
    var s := Decimal(n);
    if n < 10 {
      assert s[..|s| - 1] == "";
    } else {
      assert s[..|s| - 1] == Decimal(n / 10);
      ParseDecimal(n / 10);
    }
  }

  function PowerOfTen(n: nat): nat {
    if n == 0 then 1 else 10 * PowerOfTen(n - 1)
  }

  /** The leftmost digit weighs most: it counts for a power of ten, one for each digit after it. */
  lemma {:induction false} LeftmostDigit(c: char, s: string)
    requires IsDigit(c) && forall i | 0 <= i < |s| :: IsDigit(s[i])
    ensures ParseInt([c] + s) == (c as int - '0' as int) * PowerOfTen(|s|) + ParseInt(s)
  {
    if s == "" {
      assert [c] + s == [c] && [c][..0] == "";
    } else {
      var (init, last) := (s[..|s| - 1], s[|s| - 1]);
      assert ([c] + s)[..|s|] == [c] + init && ([c] + s)[|s|] == last;
      assert IsDigit(last);
      LeftmostDigit(c, init);
    }
  }

  /** The last space of a numbered name is the one before its number. */
  lemma LastSpace(a: string, m: nat)
    ensures var s := a + " " + Decimal(m);
            s[|a|] == ' ' && forall x | |a| < x < |s| :: s[x] != ' '
  {
    var s := a + " " + Decimal(m);
    assert forall x | |a| < x < |s| :: s[x] == Decimal(m)[x - |a| - 1];
  }

  /** The name and the number of a numbered name are determined by it. */
  lemma NumberedInjective(a: string, m: nat, b: string, n: nat)
    requires a + " " + Decimal(m) == b + " " + Decimal(n)
    ensures a == b && m == n
  {
    var s := a + " " + Decimal(m);
    LastSpace(a, m);
    LastSpace(b, n);
    assert |a| == |b|;
    assert a == s[..|a|] && b == s[..|a|];
    assert Decimal(m) == s[|a| + 1..] && Decimal(n) == s[|a| + 1..];
    ParseDecimal(m);
    ParseDecimal(n);
  }

  // ---------------------------------------------------------------- numbering repeated actions

  function Occurrences(names: seq<string>, name: string): nat {
    if names == [] then 0
    else Occurrences(names[..|names| - 1], name) + if names[|names| - 1] == name then 1 else 0
  }

  lemma {:induction false} OccurrencesPrefix(names: seq<string>, i: nat, j: nat, name: string)
    requires i <= j <= |names|
    ensures Occurrences(names[..i], name) <= Occurrences(names[..j], name)
    ensures i < j && names[i] == name ==> Occurrences(names[..i], name) < Occurrences(names[..j], name)
  {
    if i < j {
      assert names[..j][..j - 1] == names[..j - 1];
      OccurrencesPrefix(names, i, j - 1, name);
    }
  }

  /** The number an action gets: how many times its name has been met, itself included. */
  function Number(names: seq<string>, i: nat): nat
    requires i < |names|
  {
    Occurrences(names[..i], names[i]) + 1
  }

  function UniqueName(names: seq<string>, i: nat): string
    requires i < |names|
  {
    if Occurrences(names, names[i]) > 1 then names[i] + " " + Decimal(Number(names, i)) else names[i]
  }

  lemma OccurrencesNext(names: seq<string>, i: nat)
    requires i < |names|
    ensures forall name :: Occurrences(names[..i + 1], name) ==
                           Occurrences(names[..i], name) + if names[i] == name then 1 else 0
  {
    assert names[..i + 1][..i] == names[..i];
  }

  /** The loop over one app's actions. */
  method NumberActions(names: seq<string>) returns (unique: seq<string>)
    ensures |unique| == |names|
    ensures forall i | 0 <= i < |names| :: unique[i] == UniqueName(names, i)
  {
    var counts := CountActions(names);
    var duplicateActions := set name | name in counts && counts[name] > 1;
    var addedNumbers: map<string, nat> := map name | name in duplicateActions :: 1;
    unique := [];
    for i := 0 to |names|
      invariant |unique| == i
      invariant addedNumbers.Keys == duplicateActions
      invariant forall name | name in addedNumbers :: addedNumbers[name] == Occurrences(names[..i], name) + 1
      invariant forall j | 0 <= j < i :: unique[j] == UniqueName(names, j)
    {
      OccurrencesNext(names, i);
      var baseActionName := names[i];
      if baseActionName in duplicateActions {
        var addedNumber := addedNumbers[baseActionName];
        unique := unique + [baseActionName + " " + Decimal(addedNumber)];
        addedNumbers := addedNumbers[baseActionName := addedNumber + 1];
      } else {
        unique := unique + [baseActionName];
      }
    }
  }

  /** collections.Counter */
  method CountActions(names: seq<string>) returns (counts: map<string, nat>)
    ensures forall name :: (if name in counts then counts[name] else 0) == Occurrences(names, name)
  {
    counts := map[];
    for i := 0 to |names|
      invariant forall name :: (if name in counts then counts[name] else 0) == Occurrences(names[..i], name)
    {
      OccurrencesNext(names, i);
      var name := names[i];
      counts := counts[name := (if name in counts then counts[name] else 0) + 1];
    }
    assert names[..|names|] == names;
  }

  /** Some occurrence of the name gets number k. */
  ghost predicate IsGiven(names: seq<string>, name: string, k: nat) {
    exists i :: 0 <= i < |names| && names[i] == name && Number(names, i) == k
  }

  /** The numbers given to one name are exactly 1, 2, .., its count, each once, in encounter order. */
  lemma NumbersAreConsecutive(names: seq<string>, name: string)
    ensures forall i | 0 <= i < |names| && names[i] == name :: 1 <= Number(names, i) <= Occurrences(names, name)
    ensures forall i, j | 0 <= i < j < |names| && names[i] == names[j] == name :: Number(names, i) < Number(names, j)
    ensures forall k | 1 <= k <= Occurrences(names, name) :: IsGiven(names, name, k)
  {
    assert names[..|names|] == names;
    forall i | 0 <= i < |names| && names[i] == name
      ensures 1 <= Number(names, i) <= Occurrences(names, name)
    {
      OccurrencesPrefix(names, i, |names|, name);
    }
    forall i, j | 0 <= i < j < |names| && names[i] == names[j] == name
      ensures Number(names, i) < Number(names, j)
    {
      OccurrencesPrefix(names, i, j, name);
    }
    forall k | 1 <= k <= Occurrences(names, name)
      ensures IsGiven(names, name, k)
    {
      var i := FindNumber(names, name, k);
    }
  }

  lemma {:induction false} FindNumber(names: seq<string>, name: string, k: nat) returns (i: nat)
    requires 1 <= k <= Occurrences(names, name)
    ensures i < |names| && names[i] == name && Number(names, i) == k
  {
    var init := names[..|names| - 1];
    if k <= Occurrences(init, name) {
      i := FindNumber(init, name, k);
      assert names[..i] == init[..i];
    } else {
      i := |names| - 1;
    }
  }

  /** A name that occurs once and reads like a numbered repeat of another name. */
  ghost predicate Clash(names: seq<string>, i: nat, j: nat, k: nat)
    requires i < |names| && j < |names|
  {
    && Occurrences(names, names[i]) == 1
    && Occurrences(names, names[j]) > 1 && 1 <= k <= Occurrences(names, names[j])
    && names[i] == names[j] + " " + Decimal(k)
  }

  /** The numbered names of an app are pairwise distinct exactly when no name clashes. */
  lemma DistinctUnlessClash(names: seq<string>)
    ensures (forall i, j | 0 <= i < j < |names| :: UniqueName(names, i) != UniqueName(names, j))
       <==> (forall i, j, k | 0 <= i < |names| && 0 <= j < |names| && 1 <= k :: !Clash(names, i, j, k))
  {
    if i, j, k :| 0 <= i < |names| && 0 <= j < |names| && 1 <= k && Clash(names, i, j, k) {
      var j' := FindNumber(names, names[j], k);
      assert |names[i]| != |names[j']|;
      assert UniqueName(names, i) == UniqueName(names, j');
    } else {
      forall i, j | 0 <= i < j < |names|
        ensures UniqueName(names, i) != UniqueName(names, j)
      {
        NoClashHere(names, i, j);
      }
    }
  }

  lemma NoClashHere(names: seq<string>, i: nat, j: nat)
    requires i < j < |names|
    requires forall i, j, k | 0 <= i < |names| && 0 <= j < |names| && 1 <= k :: !Clash(names, i, j, k)
    ensures UniqueName(names, i) != UniqueName(names, j)
  {
    var (m, n) := (Number(names, i), Number(names, j));
    NumbersAreConsecutive(names, names[i]);
    NumbersAreConsecutive(names, names[j]);
    assert !Clash(names, i, j, n) && !Clash(names, j, i, m);
    if UniqueName(names, i) == UniqueName(names, j) && Occurrences(names, names[i]) > 1
       && Occurrences(names, names[j]) > 1 {
      NumberedInjective(names[i], m, names[j], n);
    }
  }

  // ---------------------------------------------------------------- split_action

  /** `$`: at the end, or before a final newline. */
  predicate AtEnd(s: string, k: nat) {
    k == |s| || (k + 1 == |s| && s[k] == '\n')
  }

  /** `(.+?)` takes s[..i], `\s*` takes s[i..j], `(\d*)` takes s[j..k], and `$` holds at k. */
  predicate IsMatch(s: string, i: nat, j: nat, k: nat) {
    && 1 <= i <= j <= k <= |s|
    && (forall x | 0 <= x < i :: s[x] != '\n')
    && (forall x | i <= x < j :: IsSpace(s[x]))
    && (forall x | j <= x < k :: IsDigit(s[x]))
    && AtEnd(s, k)
  }

  /** The match a backtracking engine returns: the shortest first group, then as many spaces as possible, then
      as many digits as possible. */
  ghost predicate IsPreferred(s: string, i: nat, j: nat, k: nat) {
    && IsMatch(s, i, j, k)
    && forall i': nat, j': nat, k': nat | IsMatch(s, i', j', k') ::
         i < i' || (i == i' && (j > j' || (j == j' && k >= k')))
  }

  function RunEnd(s: string, from: nat, accepts: char -> bool): (end: nat)
    requires from <= |s|
    ensures from <= end <= |s|
    ensures forall x | from <= x < end :: accepts(s[x])
    ensures end < |s| ==> !accepts(s[end])
    decreases |s| - from
  {
    if from < |s| && accepts(s[from]) then RunEnd(s, from + 1, accepts) else from
  }

  /** Backtracking through the ends k >= low of the digits. */
  function TryDigits(s: string, low: nat, k: nat): Option<nat> {
    if AtEnd(s, k) then Some(k) else if k <= low then None else TryDigits(s, low, k - 1)
  }

  /** Backtracking through the ends j >= low of the spaces. */
  function TrySpaces(s: string, low: nat, j: nat): Option<(nat, nat)>
    requires j <= |s|
  {
    match TryDigits(s, j, RunEnd(s, j, IsDigit))
    case Some(k) => Some((j, k))
    case None => if j <= low then None else TrySpaces(s, low, j - 1)
  }

  /** Backtracking through the lengths of the first group, shortest first. */
  function TryGroup(s: string, i: nat): Option<(nat, nat, nat)>
    requires i >= 1
    decreases |s| - i
  {
    if i > |s| || s[i - 1] == '\n' then None
    else
      match TrySpaces(s, i, RunEnd(s, i, IsSpace))
      case Some((j, k)) => Some((i, j, k))
      case None => TryGroup(s, i + 1)
  }

  lemma {:induction false} TryDigitsFinds(s: string, low: nat, k: nat)
    requires low <= k <= |s|
    ensures match TryDigits(s, low, k)
            case Some(r) => low <= r <= k && AtEnd(s, r) && forall x | r < x <= k :: !AtEnd(s, x)
            case None => forall x | low <= x <= k :: !AtEnd(s, x)
  {
    if !AtEnd(s, k) && k > low {
      TryDigitsFinds(s, low, k - 1);
    }
  }

  lemma {:induction false} TrySpacesFinds(s: string, i: nat, j: nat)
    requires 1 <= i <= j <= |s|
    requires forall x | 0 <= x < i :: s[x] != '\n'
    requires forall x | i <= x < j :: IsSpace(s[x])
    ensures match TrySpaces(s, i, j)
            case Some((j', k')) =>
              && IsMatch(s, i, j', k') && j' <= j
              && forall j'': nat, k'': nat | j'' <= j && IsMatch(s, i, j'', k'') :: j' > j'' || (j' == j'' && k' >= k'')
            case None => forall j'': nat, k'': nat | j'' <= j :: !IsMatch(s, i, j'', k'')
  {
    var end := RunEnd(s, j, IsDigit);
    TryDigitsFinds(s, j, end);
    assert forall k: nat | IsMatch(s, i, j, k) :: k <= end;
    if TryDigits(s, j, end).None? && j > i {
      TrySpacesFinds(s, i, j - 1);
    }
  }

  /** With the first group of length i, the greedy search finds the preferred rest. */
  lemma GroupFinds(s: string, i: nat)
    requires 1 <= i <= |s| && forall x | 0 <= x < i :: s[x] != '\n'
    ensures match TrySpaces(s, i, RunEnd(s, i, IsSpace))
            case Some((j', k')) =>
              && IsMatch(s, i, j', k')
              && forall j: nat, k: nat | IsMatch(s, i, j, k) :: j' > j || (j' == j && k' >= k)
            case None => forall j: nat, k: nat :: !IsMatch(s, i, j, k)
  {
    var end := RunEnd(s, i, IsSpace);
    TrySpacesFinds(s, i, end);
    assert forall j: nat, k: nat | IsMatch(s, i, j, k) :: j <= end;
  }

  lemma {:induction false} TryGroupFinds(s: string, i: nat)
    requires 1 <= i
    requires forall x | 0 <= x < i - 1 && x < |s| :: s[x] != '\n'
    ensures match TryGroup(s, i)
            case Some((i', j', k')) =>
              && i <= i' && IsMatch(s, i', j', k')
              && forall i'': nat, j'': nat, k'': nat | i <= i'' && IsMatch(s, i'', j'', k'') ::
                   i' < i'' || (i' == i'' && (j' > j'' || (j' == j'' && k' >= k'')))
            case None => forall i'': nat, j'': nat, k'': nat | i <= i'' :: !IsMatch(s, i'', j'', k'')
    decreases |s| - i
  {
    if i <= |s| && s[i - 1] != '\n' {
      GroupFinds(s, i);
      if TrySpaces(s, i, RunEnd(s, i, IsSpace)).None? {
        TryGroupFinds(s, i + 1);
      }
    }
  }

  /** The engine returns the preferred match, and fails only where the pattern does not match at all. */
  lemma EngineIsPreferred(s: string)
    ensures match TryGroup(s, 1)
            case Some((i, j, k)) => IsPreferred(s, i, j, k)
            case None => forall i: nat, j: nat, k: nat :: !IsMatch(s, i, j, k)
  {
    TryGroupFinds(s, 1);
  }

  /** None stands for the AttributeError on a failed match. */
  function SplitAction(s: string): Option<(string, nat)> {
    EngineIsPreferred(s);
    match TryGroup(s, 1)
    case None => None
    case Some((i, j, k)) => Some((s[..i], ParseInt(s[j..k])))
  }

  /** A name that gets its own text back from a numbered form: non-empty, on one line, and not ending in a
      space (unless it is a single character). */
  predicate Splittable(base: string) {
    base != "" && (forall x | 0 <= x < |base| :: base[x] != '\n') && (|base| == 1 || !IsSpace(base[|base| - 1]))
  }

  lemma NumberedMatch(base: string, n: nat)
    requires Splittable(base)
    ensures var s := base + " " + Decimal(n);
            IsMatch(s, |base|, |base| + 1, |s|) && IsDigit(s[|s| - 1])
  {
    var s := base + " " + Decimal(n);
    assert forall x | 0 <= x < |base| :: s[x] == base[x];
    assert forall x | |base| < x < |s| :: s[x] == Decimal(n)[x - |base| - 1];
  }

  /** With a space at b, before it no space (or nothing the first group could leave), and digits after it, the
      preferred match is the one that splits at b. */
  lemma PreferredSplitsAt(s: string, b: nat, i: nat, j: nat, k: nat)
    requires IsMatch(s, b, b + 1, |s|) && b + 1 < |s| && s[b] == ' '
    requires b == 1 || !IsSpace(s[b - 1])
    requires IsPreferred(s, i, j, k)
    ensures i == b && j == b + 1 && k == |s|
  {
    EarlierTakesSpace(s, b, i, j, k);
    assert IsDigit(s[b + 1]) && IsDigit(s[|s| - 1]);
    SpacesStop(s, i, j, k, b + 1);
  }

  lemma SpacesStop(s: string, i: nat, j: nat, k: nat, x: nat)
    requires IsMatch(s, i, j, k) && i <= x < |s| && !IsSpace(s[x])
    ensures j <= x
  {
  }

  /** A match whose first group ends before b must take the character before b as a space: digits cannot reach
      past the space at b. */
  lemma EarlierTakesSpace(s: string, b: nat, i: nat, j: nat, k: nat)
    requires IsMatch(s, i, j, k) && b < |s| && s[b] == ' ' && s[|s| - 1] != '\n'
    ensures i < b ==> b >= 2 && IsSpace(s[b - 1])
  {
  }

  lemma SplitsAt(s: string, b: nat)
    requires IsMatch(s, b, b + 1, |s|) && b + 1 < |s| && s[b] == ' '
    requires b == 1 || !IsSpace(s[b - 1])
    ensures SplitAction(s) == Some((s[..b], ParseInt(s[b + 1..])))
  {
    EngineIsPreferred(s);
    var (i, j, k) := TryGroup(s, 1).value;
    PreferredSplitsAt(s, b, i, j, k);
    assert s[j..k] == s[b + 1..];
  }

  lemma SplittableIsSplit(base: string, n: nat)
    requires Splittable(base)
    ensures SplitAction(base + " " + Decimal(n)) == Some((base, n))
  {
    var s := base + " " + Decimal(n);
    NumberedMatch(base, n);
    assert base[|base| - 1] == s[|base| - 1];
    SplitsAt(s, |base|);
    assert s[..|base|] == base && s[|base| + 1..] == Decimal(n);
    ParseDecimal(n);
  }

  lemma UnsplittableIsNotSplit(base: string, n: nat)
    requires SplitAction(base + " " + Decimal(n)) == Some((base, n))
    ensures Splittable(base)
  {
    var s := base + " " + Decimal(n);
    var b := |base|;
    EngineIsPreferred(s);
    var (i, j, k) := TryGroup(s, 1).value;
    assert |s[..i]| == b;
    assert forall x | 0 <= x < b :: s[x] == base[x];
    ShorterMatch(s, b, j, k);
  }

  /** A first group that ends with a space may end before it. */
  lemma ShorterMatch(s: string, i: nat, j: nat, k: nat)
    requires IsMatch(s, i, j, k)
    ensures i > 1 && IsSpace(s[i - 1]) ==> IsMatch(s, i - 1, j, k)
  {
  }

  /** split_action undoes the numbering exactly for these names; every stripped, non-empty, single-line name
      is one of them. */
  lemma SplitUndoesNumbering(base: string, n: nat)
    ensures SplitAction(base + " " + Decimal(n)) == Some((base, n)) <==> Splittable(base)
  {
    if Splittable(base) {
      SplittableIsSplit(base, n);
    } else if SplitAction(base + " " + Decimal(n)) == Some((base, n)) {
      UnsplittableIsNotSplit(base, n);
    }
  }

  /** A final newline is not part of the match. */
  lemma FinalNewlineIgnored(c: char, n: nat)
    requires c != '\n'
    ensures SplitAction([c] + " " + Decimal(n) + "\n") == Some(([c], n))
  {
    var s := [c] + " " + Decimal(n) + "\n";
    var last := |s| - 1;
    assert forall x | 2 <= x < last :: s[x] == Decimal(n)[x - 2];
    assert s[0] == c && s[1] == ' ' && s[last] == '\n' && IsDigit(s[2]);
    assert IsMatch(s, 1, 2, last);
    EngineIsPreferred(s);
    var (i, j, k) := TryGroup(s, 1).value;
    SpacesStop(s, i, j, k, 2);
    assert s[..1] == [c] && s[2..last] == Decimal(n);
    ParseDecimal(n);
  }

  // ---------------------------------------------------------------- the order of the report

  predicate TextLess(a: string, b: string) {
    b != "" && (a == "" || a[0] < b[0] || (a[0] == b[0] && TextLess(a[1..], b[1..])))
  }

  lemma {:induction false} TextLessIrreflexive(a: string)
    ensures !TextLess(a, a)
  {
    if a != "" {
      TextLessIrreflexive(a[1..]);
    }
  }

  /** Text order is a strict total order. */
  lemma {:induction false} TextTotal(a: string, b: string)
    ensures TextLess(a, b) || a == b || TextLess(b, a)
    ensures !(TextLess(a, b) && TextLess(b, a))
  {
    if a != "" && b != "" {
      TextTotal(a[1..], b[1..]);
      assert a == [a[0]] + a[1..] && b == [b[0]] + b[1..];
    }
  }

  lemma {:induction false} TextTransitive(a: string, b: string, c: string)
    requires TextLess(a, b) && TextLess(b, c)
    ensures TextLess(a, c)
  {
    if a != "" && a[0] == b[0] == c[0] {
      TextTransitive(a[1..], b[1..], c[1..]);
    }
  }

  lemma NotLessTransitive(a: string, b: string, c: string)
    ensures !TextLess(b, a) && !TextLess(c, b) ==> !TextLess(c, a)
  {
    TextTotal(a, b);
    TextTotal(b, c);
    TextTotal(a, c);
    if TextLess(a, b) && TextLess(b, c) {
      TextTransitive(a, b, c);
    }
  }

  /** It is dictionary order: at the first difference the smaller character comes first, and a text comes before
      its extensions. */
  lemma {:induction false} DictionaryOrder(prefix: string, a: string, b: string)
    ensures TextLess(prefix + a, prefix + b) <==> TextLess(a, b)
    ensures a != "" && b != "" && a[0] < b[0] ==> TextLess(prefix + a, prefix + b)
    ensures b != "" ==> TextLess(prefix, prefix + b)
  {
    if prefix == "" {
      assert prefix + a == a && prefix + b == b;
    } else {
      assert (prefix + a)[1..] == prefix[1..] + a && (prefix + b)[1..] == prefix[1..] + b;
      DictionaryOrder(prefix[1..], a, b);
    }
  }

  /** Ascending by (ACTION_TEXT, ACTION_NUM). */
  ghost predicate RowBefore(a: string, b: string) {
    match (SplitAction(a), SplitAction(b))
    case (Some((t, m)), Some((u, n))) => TextLess(t, u) || (t == u && m <= n)
    case _ => false
  }

  /** `order` lists every row of the app once, sorted: `sort_values(by=['ACTION_TEXT', 'ACTION_NUM'])`. */
  ghost predicate IsSortedOrder(names: seq<string>, order: seq<nat>) {
    && |order| == |names|
    && (forall p | 0 <= p < |order| :: order[p] < |names|)
    && (forall p, q | 0 <= p < q < |order| :: order[p] != order[q])
    && (forall p, q | 0 <= p < q < |order| :: RowBefore(UniqueName(names, order[p]), UniqueName(names, order[q])))
  }

  /** The first group may end at i, with only spaces of the base after it. */
  ghost predicate Cuts(base: string, i: nat) {
    && 1 <= i <= |base|
    && (forall x | 0 <= x < i :: base[x] != '\n')
    && (forall x | i <= x < |base| :: IsSpace(base[x]))
  }

  lemma CutMatches(base: string, n: nat, i: nat)
    requires Cuts(base, i)
    ensures var s := base + " " + Decimal(n); IsMatch(s, i, |base| + 1, |s|)
  {
    var s := base + " " + Decimal(n);
    assert forall x | 0 <= x < |base| :: s[x] == base[x];
    assert forall x | |base| < x < |s| :: s[x] == Decimal(n)[x - |base| - 1];
  }

  /** A match within the base takes the base's last spaces, the separating space and then the whole number. */
  lemma MatchCuts(base: string, n: nat, i: nat, j: nat, k: nat)
    requires IsMatch(base + " " + Decimal(n), i, j, k) && i <= |base|
    ensures Cuts(base, i) && j == |base| + 1 && k == |base + " " + Decimal(n)|
  {
    var s := base + " " + Decimal(n);
    assert forall x | 0 <= x < |base| :: s[x] == base[x];
    assert forall x | |base| < x < |s| :: s[x] == Decimal(n)[x - |base| - 1];
    assert s[|base|] == ' ' && IsDigit(s[|base| + 1]) && IsDigit(s[|s| - 1]);
    SpacesStop(s, i, j, k, |base| + 1);
  }

  /** When the first group reaches past the base, it could also have ended with it. */
  lemma WholeBase(base: string, n: nat, i: nat, j: nat, k: nat)
    requires base != "" && IsMatch(base + " " + Decimal(n), i, j, k)
    ensures i > |base| ==> var s := base + " " + Decimal(n); IsMatch(s, |base|, |base| + 1, |s|)
  {
    if i > |base| {
      var s := base + " " + Decimal(n);
      assert forall x | 0 <= x < |base| :: s[x] == base[x];
      CutMatches(base, n, |base|);
    }
  }

  /** Splitting any numbered name gives back its number; the text is the shortest cut of the base, whatever the
      number. */
  lemma NumberedSplit(base: string, n: nat) returns (i: nat)
    requires base != "" && SplitAction(base + " " + Decimal(n)).Some?
    ensures Cuts(base, i) && forall i': nat | Cuts(base, i') :: i <= i'
    ensures SplitAction(base + " " + Decimal(n)) == Some((base[..i], n))
  {
    var s := base + " " + Decimal(n);
    EngineIsPreferred(s);
    var (first, j, k) := TryGroup(s, 1).value;
    i := first;
    WholeBase(base, n, i, j, k);
    MatchCuts(base, n, i, j, k);
    forall i': nat | Cuts(base, i')
      ensures i <= i'
    {
      CutMatches(base, n, i');
    }
    assert s[..i] == base[..i] && s[j..k] == Decimal(n);
    ParseDecimal(n);
  }

  lemma DigitsAfterOne(s: string)
    requires |s| > 1 && s[0] != '\n' && forall x | 1 <= x < |s| :: IsDigit(s[x])
    ensures SplitAction(s) == Some((s[..1], ParseInt(s[1..])))
  {
    assert IsMatch(s, 1, 1, |s|);
    EngineIsPreferred(s);
    var (i, j, k) := TryGroup(s, 1).value;
    SpacesStop(s, i, j, k, 1);
    assert s[j..k] == s[1..];
  }

  /** A number alone is split into the separating space and itself. */
  lemma EmptySplit(n: nat)
    ensures SplitAction("" + " " + Decimal(n)) == Some((" ", n))
  {
    var s := "" + " " + Decimal(n);
    assert s == " " + Decimal(n);
    assert s[..1] == " " && s[1..] == Decimal(n);
    DigitsAfterOne(s);
    ParseDecimal(n);
  }

  lemma SameText(base: string, m: nat, n: nat)
    requires SplitAction(base + " " + Decimal(m)).Some? && SplitAction(base + " " + Decimal(n)).Some?
    ensures var ((t, m'), (u, n')) :=
              (SplitAction(base + " " + Decimal(m)).value, SplitAction(base + " " + Decimal(n)).value);
            t == u && m' == m && n' == n
  {
    if base == "" {
      EmptySplit(m);
      EmptySplit(n);
    } else {
      var i := NumberedSplit(base, m);
      var j := NumberedSplit(base, n);
    }
  }

  /** Whatever the sort does with other rows, and whatever the name, the repeats of an action come out in the
      order in which they were recorded: by number, not by the text of the number. */
  lemma RepeatsKeepTheirOrder(names: seq<string>, order: seq<nat>, p: nat, q: nat)
    requires IsSortedOrder(names, order) && p < q < |order|
    requires names[order[p]] == names[order[q]]
    ensures order[p] < order[q] && Number(names, order[p]) < Number(names, order[q])
  {
    var (i, j) := (order[p], order[q]);
    var base := names[i];
    assert i != j;
    Repeated(names, i, j);
    assert RowBefore(UniqueName(names, i), UniqueName(names, j));
    SameText(base, Number(names, i), Number(names, j));
    var (text, number) := SplitAction(UniqueName(names, i)).value;
    TextLessIrreflexive(text);
    assert Number(names, i) <= Number(names, j);
    NumbersAreConsecutive(names, base);
  }

  lemma Repeated(names: seq<string>, i: nat, j: nat)
    requires i < |names| && j < |names| && i != j && names[i] == names[j]
    ensures Occurrences(names, names[i]) > 1
  {
    var (a, b) := if i < j then (i, j) else (j, i);
    assert names[..|names|] == names;
    OccurrencesPrefix(names, a, b, names[i]);
    OccurrencesPrefix(names, b, |names|, names[i]);
  }

  /** The clash does happen: three names, and the third one looks like the first with its number. */
  lemma NumberedNamesCollide(names: seq<string>)
    requires names == ["a", "a", "a 1"]
    ensures UniqueName(names, 0) == UniqueName(names, 2)
  {
    assert Occurrences([], "a") == 0 && Occurrences([], "a 1") == 0;
    assert names[..1] == ["a"] && names[..2] == ["a", "a"] && names[..0] == [];
    assert names[2] != names[0];
    assert Occurrences(names[..1], "a") == 1 && Occurrences(names[..2], "a") == 2 && Occurrences(names, "a") == 2;
    assert Occurrences(names[..1], "a 1") == 0 && Occurrences(names[..2], "a 1") == 0 && Occurrences(names, "a 1") == 1;
    assert Decimal(1) == "1";
    assert Number(names, 0) == 1;
    assert "a" + " " + "1" == "a 1";
    assert UniqueName(names, 0) == "a 1" && UniqueName(names, 2) == "a 1";
  }
}
