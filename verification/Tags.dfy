/** `get_previous_tags` (deploy/test_results_db/db_handler.py) and the tag patterns of clickfile.py. */
module Tags {
  import opened Wrappers
  import opened Lists
  import opened Characters

  datatype Version = Version(major: nat, minor: nat, micro: nat)
  {
    predicate Less(other: Version) {
      major < other.major
      || (major == other.major && (minor < other.minor || (minor == other.minor && micro < other.micro)))
    }
  }

  // ---------------------------------------------------------------- patterns

  /** `\d{1,2}`, taking two digits where it can, and the text after it. */
  function TakeNumber(s: string): Option<(nat, string)> {
    if s == "" || !IsDigit(s[0]) then None
    else
      var d := s[0] as int - '0' as int;
      if |s| > 1 && IsDigit(s[1]) then Some((10 * d + (s[1] as int - '0' as int), s[2..]))
      else Some((d, s[1..]))
  }

  function TakeChar(s: string, c: char): Option<string> {
    if s != "" && s[0] == c then Some(s[1..]) else None
  }

  /** `[vt]\d{1,2}\.\d{1,2}\.` and the text after it. */
  function TakeMajorMinor(s: string): Option<(nat, nat, string)> {
    if s == "" || s[0] !in {'v', 't'} then None
    else
      match TakeNumber(s[1..])
      case None => None
      case Some((major, rest)) =>
        match TakeChar(rest, '.')
        case None => None
        case Some(rest) =>
          match TakeNumber(rest)
          case None => None
          case Some((minor, rest)) =>
            match TakeChar(rest, '.')
            case None => None
            case Some(rest) => Some((major, minor, rest))
  }

  /** The version and the unmatched rest, before `$` is looked at. */
  function TakeTag(s: string): Option<(Version, string)> {
    match TakeMajorMinor(s)
    case None => None
    case Some((major, minor, rest)) =>
      match TakeNumber(rest)
      case None => None
      case Some((micro, rest)) => Some((Version(major, minor, micro), rest))
  }

  /** GITHUB_TAG_PATTERN.match: `$` also holds before a final newline. */
  predicate IsTag(s: string) {
    TakeTag(s).Some? && (TakeTag(s).value.1 == "" || TakeTag(s).value.1 == "\n")
  }

  /** re.fullmatch(GITHUB_TAG_PATTERN, s). */
  predicate IsWholeTag(s: string) {
    TakeTag(s).Some? && TakeTag(s).value.1 == ""
  }

  /** re.fullmatch(VERSION_BRANCH_TEMPLATE, s). */
  predicate IsVersionBranch(s: string) {
    && TakeMajorMinor(s).Some?
    && var rest := TakeMajorMinor(s).value.2;
       rest != "" && rest[0] == 'x' && forall i | 1 <= i < |rest| :: rest[i] != '\n'
  }

  /** version.parse after removing the leading letter (for a string that is no tag, the value is not used). */
  function VersionOf(tag: string): Version {
    if TakeTag(tag).Some? then TakeTag(tag).value.0 else Version(0, 0, 0)
  }

  // ---------------------------------------------------------------- the patterns as texts

  /** A text that `\d{1,2}` matches, and its number. */
  predicate IsNumber(t: string) {
    1 <= |t| <= 2 && IsDigit(t[0]) && IsDigit(t[|t| - 1])
  }

  function NumberIn(t: string): nat
    requires IsNumber(t)
  {
    var last := t[|t| - 1] as int - '0' as int;
    if |t| == 1 then last else 10 * (t[0] as int - '0' as int) + last
  }

  /** The text is c, a number, a dot, a number, a dot, and the rest. */
  ghost predicate MajorMinor(s: string, c: char, major: string, minor: string, rest: string) {
    && (c == 'v' || c == 't') && IsNumber(major) && IsNumber(minor)
    && s == [c] + (major + ("." + (minor + ("." + rest))))
  }

  /** The text is a tag with these numbers, followed by `end`. */
  ghost predicate TagText(s: string, c: char, major: string, minor: string, micro: string, end: string) {
    IsNumber(micro) && MajorMinor(s, c, major, minor, micro + end)
  }

  lemma NumberTaken(t: string, rest: string)
    requires IsNumber(t) && (rest == "" || !IsDigit(rest[0]))
    ensures TakeNumber(t + rest) == Some((NumberIn(t), rest))
  {
    var s := t + rest;
    assert s[|t|..] == rest;
    assert forall i | 0 <= i < |t| :: s[i] == t[i];
    assert rest != "" ==> s[|t|] == rest[0];
  }

  lemma TakenNumber(s: string) returns (t: string)
    requires TakeNumber(s).Some?
    ensures IsNumber(t) && TakeNumber(s).value.0 == NumberIn(t) && s == t + TakeNumber(s).value.1
  {
    t := if |s| > 1 && IsDigit(s[1]) then s[..2] else s[..1];
  }

  lemma MajorMinorTaken(s: string, c: char, major: string, minor: string, rest: string)
    requires MajorMinor(s, c, major, minor, rest)
    ensures TakeMajorMinor(s) == Some((NumberIn(major), NumberIn(minor), rest))
  {
    var afterMinor := "." + rest;
    var afterMajor := "." + (minor + afterMinor);
    NumberTaken(minor, afterMinor);
    NumberTaken(major, afterMajor);
    assert s[1..] == major + afterMajor;
    assert afterMajor[1..] == minor + afterMinor && afterMinor[1..] == rest;
  }

  lemma TakenMajorMinor(s: string) returns (c: char, major: string, minor: string, rest: string)
    requires TakeMajorMinor(s).Some?
    ensures MajorMinor(s, c, major, minor, rest)
    ensures TakeMajorMinor(s) == Some((NumberIn(major), NumberIn(minor), rest))
  {
    c := s[0];
    major := TakenNumber(s[1..]);
    var afterMajor := TakeNumber(s[1..]).value.1;
    minor := TakenNumber(afterMajor[1..]);
    var afterMinor := TakeNumber(afterMajor[1..]).value.1;
    rest := afterMinor[1..];
    assert afterMinor == "." + rest && afterMajor == "." + afterMajor[1..];
    assert s == [c] + s[1..];
  }

  lemma TagTaken(s: string, c: char, major: string, minor: string, micro: string, end: string)
    requires TagText(s, c, major, minor, micro, end) && (end == "" || end == "\n")
    ensures TakeTag(s) == Some((Version(NumberIn(major), NumberIn(minor), NumberIn(micro)), end))
  {
    MajorMinorTaken(s, c, major, minor, micro + end);
    NumberTaken(micro, end);
  }

  lemma TakenTag(s: string) returns (c: char, major: string, minor: string, micro: string, end: string)
    requires TakeTag(s).Some?
    ensures TagText(s, c, major, minor, micro, end) && TakeTag(s).value.1 == end
  {
    var rest;
    c, major, minor, rest := TakenMajorMinor(s);
    micro := TakenNumber(rest);
    end := TakeNumber(rest).value.1;
  }

  /** GITHUB_TAG_PATTERN matches exactly the texts it describes, to the end or up to a final newline; and the
      version of such a text is its three numbers. */
  lemma TagPattern(s: string)
    ensures IsWholeTag(s) <==> exists c, major, minor, micro :: TagText(s, c, major, minor, micro, "")
    ensures IsTag(s) <==> exists c, major, minor, micro, end ::
                            (end == "" || end == "\n") && TagText(s, c, major, minor, micro, end)
    ensures forall c, major, minor, micro, end |
              (end == "" || end == "\n") && TagText(s, c, major, minor, micro, end) ::
              VersionOf(s) == Version(NumberIn(major), NumberIn(minor), NumberIn(micro))
  {
    if TakeTag(s).Some? {
      var c, major, minor, micro, end := TakenTag(s);
    }
    forall c, major, minor, micro, end | (end == "" || end == "\n") && TagText(s, c, major, minor, micro, end)
      ensures TakeTag(s) == Some((Version(NumberIn(major), NumberIn(minor), NumberIn(micro)), end))
    {
      TagTaken(s, c, major, minor, micro, end);
    }
  }

  /** VERSION_BRANCH_TEMPLATE matches exactly two numbers and, on one line, a text that begins with x. */
  lemma VersionBranchPattern(s: string)
    ensures IsVersionBranch(s) <==>
            exists c, major, minor, rest :: MajorMinor(s, c, major, minor, rest) && "x" <= rest && '\n' !in rest
  {
    if IsVersionBranch(s) {
      var c, major, minor, rest := TakenMajorMinor(s);
      OneLine(rest);
    }
    forall c, major, minor, rest | MajorMinor(s, c, major, minor, rest) && "x" <= rest && '\n' !in rest
      ensures IsVersionBranch(s)
    {
      MajorMinorTaken(s, c, major, minor, rest);
      OneLine(rest);
    }
  }

  lemma OneLine(rest: string)
    ensures "x" <= rest && '\n' !in rest
       <==> rest != "" && rest[0] == 'x' && forall i | 1 <= i < |rest| :: rest[i] != '\n'
  {
    if rest != "" && rest[0] == 'x' && '\n' in rest {
      var i :| 0 <= i < |rest| && rest[i] == '\n';
      assert i >= 1;
    }
  }

  // ---------------------------------------------------------------- the query

  /** Descending version order. */
  function NotBelow(): (string, string) -> bool {
    (s: string, t: string) => !VersionOf(s).Less(VersionOf(t))
  }

  /** A stored tag that qualifies: well-formed, with a version below the given one. */
  function Below(latest: Version): string -> bool {
    (tag: string) => IsTag(tag) && VersionOf(tag).Less(latest)
  }

  /** A Python slice `tags[:limit]`; a negative limit counts from the end. */
  function UpTo(tags: seq<string>, limit: int): seq<string> {
    Take(tags, if limit >= 0 then limit else |tags| + limit)
  }

  lemma VersionsOrdered()
    ensures TotalPreorder(NotBelow())
  {
    var before := NotBelow();
    assert forall a: Version, b: Version, c: Version :: !a.Less(b) && !b.Less(c) ==> !a.Less(c);
    forall a: string, b: string, c: string | before(a, b) && before(b, c)
      ensures before(a, c)
    {
      assert !VersionOf(a).Less(VersionOf(b)) && !VersionOf(b).Less(VersionOf(c));
    }
  }

  lemma SortedTags(stored: seq<string>) returns (sorted: seq<string>)
    requires Distinct(stored)
    ensures sorted == SortBy(NotBelow(), Filter(IsTag, stored))
    ensures Distinct(sorted) && Sorted(NotBelow(), sorted)
    ensures forall t :: t in sorted <==> t in stored && IsTag(t)
  {
    var tags := Filter(IsTag, stored);
    sorted := SortBy(NotBelow(), tags);
    FilterSelects(IsTag, stored);
    VersionsOrdered();
    SortSorts(NotBelow(), tags);
    SortPermutes(NotBelow(), tags);
    PermutedDistinct(tags, sorted);
    PermutedMembers(tags, sorted);
  }

  /** From the first tag below `latest` on, the sorted list holds exactly the qualifying tags. */
  lemma TailIsBelow(stored: seq<string>, sorted: seq<string>, latest: Version, i: nat)
    requires Distinct(sorted) && Sorted(NotBelow(), sorted)
    requires forall t :: t in sorted <==> t in stored && IsTag(t)
    requires i <= |sorted| && forall k | 0 <= k < i :: !VersionOf(sorted[k]).Less(latest)
    requires i < |sorted| ==> VersionOf(sorted[i]).Less(latest)
    ensures Distinct(sorted[i..]) && Sorted(NotBelow(), sorted[i..])
    ensures forall t :: t in sorted[i..] <==> t in stored && Below(latest)(t)
  {
    forall k | i <= k < |sorted|
      ensures Below(latest)(sorted[k])
    {
      assert sorted[k] in sorted;
      assert k > i ==> NotBelow()(sorted[i], sorted[k]);
    }
    forall t | t in stored && Below(latest)(t)
      ensures t in sorted[i..]
    {
      assert t in sorted;
      var k :| 0 <= k < |sorted| && sorted[k] == t;
      assert sorted[i..][k - i] == t;
    }
  }

  // ---------------------------------------------------------------- versions as numbers

  lemma LessByWeight(v: Version, w: Version)
    requires v.major <= 99 && v.minor <= 99 && v.micro <= 99 && w.major <= 99 && w.minor <= 99 && w.micro <= 99
    ensures v.Less(w) <==> 10000 * v.major + 100 * v.minor + v.micro < 10000 * w.major + 100 * w.minor + w.micro
  {
  }

  /** A tag's three numbers as one: two digits for each. */
  function Weight(tag: string): nat {
    var v := VersionOf(tag);
    10000 * v.major + 100 * v.minor + v.micro
  }

  lemma TagWeights(s: string, t: string)
    requires IsTag(s) && IsTag(t)
    ensures VersionOf(s).Less(VersionOf(t)) <==> Weight(s) < Weight(t)
  {
    SmallNumbers(s);
    SmallNumbers(t);
    LessByWeight(VersionOf(s), VersionOf(t));
  }

  lemma SmallNumbers(s: string)
    requires IsTag(s)
    ensures VersionOf(s).major <= 99 && VersionOf(s).minor <= 99 && VersionOf(s).micro <= 99
  {
    var c, major, minor, micro, end := TakenTag(s);
    TagTaken(s, c, major, minor, micro, end);
  }

  ghost predicate IsStoredBelow(t: string, stored: seq<string>, tag: string) {
    t in stored && IsTag(t) && Weight(t) < Weight(tag)
  }

  /** The previous tags are stored tags below the given one, each once, in descending order; a stored tag below
      it that is left out is not above any of them; and without room being used up, none is left out. */
  ghost predicate GreatestBelow(stored: seq<string>, tag: string, limit: int, previous: seq<string>) {
    && Distinct(previous) && (forall t | t in previous :: IsStoredBelow(t, stored, tag))
    && (forall i, j | 0 <= i < j < |previous| :: Weight(previous[i]) >= Weight(previous[j]))
    && (forall t, p | IsStoredBelow(t, stored, tag) && t !in previous && p in previous :: Weight(t) <= Weight(p))
    && (limit >= 0 ==> |previous| <= limit)
    && (0 <= |previous| < limit ==> forall t | IsStoredBelow(t, stored, tag) :: t in previous)
  }

  lemma FirstIsGreatest(stored: seq<string>, tag: string, limit: int, previous: seq<string>)
    requires Distinct(stored) && IsTag(tag)
    requires var below := Below(VersionOf(tag));
             && FirstOf(NotBelow(), below, stored, previous)
             && (limit >= 0 ==>
                  |previous| == if limit < |Filter(below, stored)| then limit else |Filter(below, stored)|)
    ensures GreatestBelow(stored, tag, limit, previous)
  {
    var below := Below(VersionOf(tag));
    forall t | t in stored
      ensures below(t) <==> IsStoredBelow(t, stored, tag)
    {
      if IsTag(t) {
        TagWeights(t, tag);
      }
    }
    forall i, j | 0 <= i < j < |previous|
      ensures Weight(previous[i]) >= Weight(previous[j])
    {
      assert previous[i] in previous && previous[j] in previous;
      assert NotBelow()(previous[i], previous[j]);
      TagWeights(previous[i], previous[j]);
    }
    forall t, p | IsStoredBelow(t, stored, tag) && t !in previous && p in previous
      ensures Weight(t) <= Weight(p)
    {
      var k :| 0 <= k < |previous| && previous[k] == p;
      assert NotBelow()(previous[k], t);
      TagWeights(p, t);
    }
    if 0 <= |previous| < limit {
      AllTaken(below, stored, previous);
    }
  }

  /** A list without repetition that is as long as the qualifying ones holds them all. */
  lemma AllTaken(keep: string -> bool, stored: seq<string>, previous: seq<string>)
    requires Distinct(stored) && Distinct(previous) && (forall t | t in previous :: t in stored && keep(t))
    requires |previous| == |Filter(keep, stored)|
    ensures forall t | t in stored && keep(t) :: t in previous
  {
    FilterSelects(keep, stored);
    Exhausted(previous, Filter(keep, stored));
  }

  lemma Exhausted(a: seq<string>, b: seq<string>)
    requires Distinct(a) && Distinct(b) && |a| == |b| && forall x | x in a :: x in b
    ensures forall x | x in b :: x in a
  {
    SetSize(a);
    SetSize(b);
    var (x, y) := (set t | t in a, set t | t in b);
    assert x <= y;
    if t :| t in b && t !in a {
      assert x <= y - {t};
      SubsetSmaller(x, y - {t});
    }
  }

  lemma {:induction false} SubsetSmaller(x: set<string>, y: set<string>)
    requires x <= y
    ensures |x| <= |y|
  {
    if t :| t in x {
      SubsetSmaller(x - {t}, y - {t});
    }
  }

  // ---------------------------------------------------------------- the method

  /** For every set of stored tags: the call fails exactly for a malformed tag; otherwise it returns the
      greatest well-formed stored tags strictly below it, in descending order, as many as the limit allows. */
  method GetPreviousTags(stored: seq<string>, tag: string, limit: int) returns (previous: Option<seq<string>>)
    requires Distinct(stored)
    ensures previous.Some? <==> IsWholeTag(tag)
    ensures previous.Some? ==> GreatestBelow(stored, tag, limit, previous.value)
    ensures previous.Some? ==>
              var below := Below(VersionOf(tag));
              var n := |Filter(below, stored)|;
              && FirstOf(NotBelow(), below, stored, previous.value)
              && (limit >= 0 ==> |previous.value| == if limit < n then limit else n)
              && (limit < 0 ==> |previous.value| == if n + limit > 0 then n + limit else 0)
  {
    if !IsWholeTag(tag) {
      return None;
    }
    var sortedTags := SortBy(NotBelow(), Filter(IsTag, stored));
    var latestTag := VersionOf(tag);
    ghost var s := SortedTags(stored);
    for i := 0 to |sortedTags|
      invariant forall k | 0 <= k < i :: !VersionOf(sortedTags[k]).Less(latestTag)
    {
      if VersionOf(sortedTags[i]).Less(latestTag) {
        TailIsBelow(stored, sortedTags, latestTag, i);
        ghost var n := if limit >= 0 then limit else |sortedTags[i..]| + limit;
        TakeIsFirst(NotBelow(), Below(latestTag), stored, sortedTags[i..], n);
        FirstIsGreatest(stored, tag, limit, UpTo(sortedTags[i..], limit));
        return Some(UpTo(sortedTags[i..], limit));
      }
    }
    TailIsBelow(stored, sortedTags, latestTag, |sortedTags|);
    TakeIsFirst(NotBelow(), Below(latestTag), stored, sortedTags[|sortedTags|..], 0);
    previous := Some([]);
    FirstIsGreatest(stored, tag, limit, []);
  }
}
