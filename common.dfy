/** Shared vocabulary of the model: identifiers, the success/error envelope,
    and the .NET / JavaScript string and sequence primitives the services use
    (Trim, ToUpper, Split, Contains, int.TryParse, number formatting, LINQ
    Where/Count/Sum/OrderBy/Skip/Take), each written out with its meaning. */
module Common {

  /** Entity identifiers (Guids in the source) and instants (DateTime ticks). */
  type Id = nat
  type Time = int

  /** 100-nanosecond ticks per minute, as in .NET's TimeSpan. */
  const TicksPerMinute: int := 600_000_000

  datatype Option<T> = None | Some(value: T)

  /** The ApiResponse envelope: success with data and a message, or an error message. */
  datatype Result<T> = Success(data: T, message: string) | Failure(message: string)

  /** An operation either returns or throws an exception to its caller. */
  datatype Outcome<T> = Done(value: T) | Thrown(message: string)

  /** Stand-ins for the runtime's own exception texts: tracking two join rows
      with the same key, and saving a row whose foreign key matches no row. */
  const MsgDuplicateLink := "duplicate question knowledge point link"
  const MsgMissingReference := "foreign key constraint violated"

  // ---------------------------------------------------------------------
  // Characters and trimming
  // ---------------------------------------------------------------------

  /** char.IsWhiteSpace (and the regex class \s): the Unicode space separators,
      the C0 controls TAB..CR, NEL, and the line/paragraph separators. */
  predicate IsWhite(c: char) {
    c == ' ' || ('\t' <= c <= '\r') || c == '\U{0085}' || c == '\U{00A0}' || c == '\U{1680}'
    || ('\U{2000}' <= c <= '\U{200A}') || c == '\U{2028}' || c == '\U{2029}'
    || c == '\U{202F}' || c == '\U{205F}' || c == '\U{3000}'
  }

  /** string.IsNullOrWhiteSpace on a present string. */
  predicate IsBlank(s: string) {
    forall i :: 0 <= i < |s| ==> IsWhite(s[i])
  }

  /** string.IsNullOrWhiteSpace on a nullable string. */
  predicate IsNullOrBlank(s: Option<string>) {
    s.None? || IsBlank(s.value)
  }

  function TrimStart(s: string): (r: string)
    ensures |r| <= |s| && r == s[|s| - |r|..]
    ensures r == [] || !IsWhite(r[0])
    ensures forall i :: 0 <= i < |s| - |r| ==> IsWhite(s[i])
  {
    if s == [] || !IsWhite(s[0]) then s else TrimStart(s[1..])
  }

  function TrimEnd(s: string): (r: string)
    ensures |r| <= |s| && r == s[..|r|]
    ensures r == [] || !IsWhite(r[|r| - 1])
    ensures forall i :: |r| <= i < |s| ==> IsWhite(s[i])
  {
    if s == [] || !IsWhite(s[|s| - 1]) then s else TrimEnd(s[..|s| - 1])
  }

  /** string.Trim: the longest slice without white space at either end. */
  function Trim(s: string): (r: string)
    ensures var k := |s| - |TrimStart(s)|; k + |r| <= |s| && r == s[k..k + |r|]
    ensures r == [] || (!IsWhite(r[0]) && !IsWhite(r[|r| - 1]))
  {
    TrimEnd(TrimStart(s))
  }

  lemma TrimEmptyIffBlank(s: string)
    ensures Trim(s) == [] <==> IsBlank(s)
  {
    var t := TrimStart(s);
    if t != [] {
      assert t[0] == s[|s| - |t|];
    }
  }

  lemma TrimOfTrimmed(s: string)
    requires s == [] || (!IsWhite(s[0]) && !IsWhite(s[|s| - 1]))
    ensures Trim(s) == s
  {
  }

  /** Trimming twice is trimming once. */
  lemma TrimIdempotent(s: string)
    ensures Trim(Trim(s)) == Trim(s)
  {
    TrimOfTrimmed(Trim(s));
  }

  // ---------------------------------------------------------------------
  // Case mapping (ASCII letters only; culture rules are not modelled)
  // ---------------------------------------------------------------------

  function UpperChar(c: char): char {
    if 'a' <= c <= 'z' then (c as int - 32) as char else c
  }

  function LowerChar(c: char): char {
    if 'A' <= c <= 'Z' then (c as int + 32) as char else c
  }

  function ToUpper(s: string): (r: string)
    ensures |r| == |s| && forall i :: 0 <= i < |s| ==> r[i] == UpperChar(s[i])
  {
    seq(|s|, i requires 0 <= i < |s| => UpperChar(s[i]))
  }

  function ToLower(s: string): (r: string)
    ensures |r| == |s| && forall i :: 0 <= i < |s| ==> r[i] == LowerChar(s[i])
  {
    seq(|s|, i requires 0 <= i < |s| => LowerChar(s[i]))
  }

  /** Two strings agree ignoring ASCII case exactly when their upper-case forms agree. */
  lemma UpperOfLower(s: string)
    ensures ToUpper(ToLower(s)) == ToUpper(s)
  {
  }

  lemma LowerOfUpper(s: string)
    ensures ToLower(ToUpper(s)) == ToLower(s)
  {
  }

  /** White space is not a letter, so trimming commutes with case mapping. */
  lemma {:induction false} TrimUpper(s: string)
    ensures Trim(ToUpper(s)) == ToUpper(Trim(s))
  {
    TrimStartUpper(s);
    TrimEndUpper(TrimStart(s));
  }

  lemma UpperCharWhite(c: char)
    ensures IsWhite(UpperChar(c)) <==> IsWhite(c)
    ensures IsWhite(c) ==> UpperChar(c) == c
  {
  }

  lemma {:induction false} TrimStartUpper(s: string)
    ensures TrimStart(ToUpper(s)) == ToUpper(TrimStart(s))
    decreases |s|
  {
    if s != [] {
      var u := ToUpper(s);
      assert u[0] == UpperChar(s[0]);
      UpperCharWhite(s[0]);
      if IsWhite(s[0]) {
        assert TrimStart(u) == TrimStart(u[1..]);
        assert u[1..] == ToUpper(s[1..]);
        TrimStartUpper(s[1..]);
      } else {
        assert TrimStart(u) == u;
      }
    }
  }

  lemma {:induction false} TrimEndUpper(s: string)
    ensures TrimEnd(ToUpper(s)) == ToUpper(TrimEnd(s))
    decreases |s|
  {
    if s != [] {
      var u := ToUpper(s);
      UpperCharWhite(s[|s| - 1]);
      assert u[|s| - 1] == UpperChar(s[|s| - 1]);
      if IsWhite(s[|s| - 1]) {
        assert u[..|s| - 1] == ToUpper(s[..|s| - 1]);
        TrimEndUpper(s[..|s| - 1]);
      }
    }
  }

  /** String.EndsWith(suffix, StringComparison.OrdinalIgnoreCase). */
  predicate EndsWithIgnoreCase(s: string, suffix: string) {
    |suffix| <= |s| && ToLower(s[|s| - |suffix|..]) == ToLower(suffix)
  }

  /** String.Contains(needle): ordinal substring search. */
  predicate Contains(hay: string, needle: string) {
    exists i :: 0 <= i <= |hay| && OccursAt(hay, needle, i)
  }

  /** needle occurs in hay starting at position i. */
  predicate OccursAt(hay: string, needle: string, i: int) {
    0 <= i && i + |needle| <= |hay| && hay[i..i + |needle|] == needle
  }

  /** String.StartsWith(prefix), ordinal. */
  predicate StartsWith(s: string, prefix: string) {
    |prefix| <= |s| && s[..|prefix|] == prefix
  }

  // ---------------------------------------------------------------------
  // Splitting
  // ---------------------------------------------------------------------

  /** String.Split(separators) without options: the pieces between separator
      characters, empty pieces included. */
  function Split(s: string, seps: set<char>): (r: seq<string>)
    ensures |r| >= 1
    ensures forall k, i :: 0 <= k < |r| && 0 <= i < |r[k]| ==> r[k][i] !in seps
    decreases |s|
  {
    if s == [] then [""]
    else
      var rest := Split(s[1..], seps);
      if s[0] in seps then [""] + rest else [[s[0]] + rest[0]] + rest[1..]
  }

  function CountChar(s: string, c: char): nat {
    if s == [] then 0 else (if s[0] == c then 1 else 0) + CountChar(s[1..], c)
  }

  /** Joining pieces back with one separator character. */
  function JoinWith(pieces: seq<string>, c: char): string
    requires |pieces| >= 1
  {
    if |pieces| == 1 then pieces[0] else pieces[0] + [c] + JoinWith(pieces[1..], c)
  }

  /** Splitting on one character cuts the string into one more piece than it
      has separators, and joining the pieces restores it. */
  lemma {:induction false} SplitJoin(s: string, c: char)
    ensures |Split(s, {c})| == CountChar(s, c) + 1
    ensures JoinWith(Split(s, {c}), c) == s
    decreases |s|
  {
    if s != [] {
      SplitJoin(s[1..], c);
      var rest := Split(s[1..], {c});
      if s[0] != c {
        if |rest| == 1 {
        } else {
          assert rest == [rest[0]] + rest[1..];
          assert JoinWith(rest, c) == rest[0] + [c] + JoinWith(rest[1..], c);
        }
      }
    }
  }

  function NonEmpty(pieces: seq<string>): (r: seq<string>)
    ensures forall k :: 0 <= k < |r| ==> r[k] != []
    ensures forall x :: x in r <==> x in pieces && x != []
  {
    if pieces == [] then []
    else if pieces[0] == [] then NonEmpty(pieces[1..])
    else [pieces[0]] + NonEmpty(pieces[1..])
  }

  /** Index of the first occurrence of a non-empty separator string, if any. */
  function IndexOf(s: string, sep: string): (r: Option<nat>)
    requires sep != []
    ensures r.Some? ==> OccursAt(s, sep, r.value)
    ensures r.Some? ==> forall j :: 0 <= j < r.value ==> !OccursAt(s, sep, j)
    ensures r.None? ==> forall j :: !OccursAt(s, sep, j)
    decreases |s|
  {
    if |s| < |sep| then None
    else if s[..|sep|] == sep then Some(0)
    else
      assert forall j :: 1 <= j ==> (OccursAt(s, sep, j) <==> OccursAt(s[1..], sep, j - 1)) by {
        forall j | 1 <= j ensures OccursAt(s, sep, j) <==> OccursAt(s[1..], sep, j - 1) {
          if j + |sep| <= |s| {
            var a, b := s[j..j + |sep|], s[1..][j - 1..j - 1 + |sep|];
            assert |a| == |b|;
            forall t | 0 <= t < |a| ensures a[t] == b[t] {
            }
            assert a == b;
          }
        }
      }
      match IndexOf(s[1..], sep)
      case None => None
      case Some(k) => Some(k + 1)
  }

  /** String.Split(string separator) without options, searching left to right
      for non-overlapping occurrences. */
  function SplitOnString(s: string, sep: string): (r: seq<string>)
    requires sep != []
    ensures |r| >= 1
    decreases |s|
  {
    match IndexOf(s, sep)
    case None => [s]
    case Some(i) => [s[..i]] + SplitOnString(s[i + |sep|..], sep)
  }

  function JoinWithString(pieces: seq<string>, sep: string): string
    requires |pieces| >= 1
  {
    if |pieces| == 1 then pieces[0] else pieces[0] + sep + JoinWithString(pieces[1..], sep)
  }

  /** Splitting on a separator string and joining with it again is the identity,
      and no piece contains the separator. */
  lemma {:induction false} SplitOnStringJoin(s: string, sep: string)
    requires sep != []
    ensures JoinWithString(SplitOnString(s, sep), sep) == s
    ensures forall k :: 0 <= k < |SplitOnString(s, sep)| ==> !Contains(SplitOnString(s, sep)[k], sep)
    decreases |s|
  {
    match IndexOf(s, sep)
    case None =>
      assert !Contains(s, sep);
    case Some(i) =>
      var rest := s[i + |sep|..];
      SplitOnStringJoin(rest, sep);
      assert s == s[..i] + sep + rest;
      var r := SplitOnString(s, sep);
      assert r == [s[..i]] + SplitOnString(rest, sep);
      forall k | 0 <= k < |r| ensures !Contains(r[k], sep) {
        if k == 0 {
          if Contains(s[..i], sep) {
            var j :| OccursAt(s[..i], sep, j);
            var pre := s[..i];
            assert OccursAt(pre, sep, j);
            assert 0 <= j && j + |sep| <= |pre|;
            assert s[..i][j..j + |sep|] == s[j..j + |sep|];
            assert OccursAt(s, sep, j);
          }
        } else {
          assert r[k] == SplitOnString(rest, sep)[k - 1];
        }
      }
  }

  // ---------------------------------------------------------------------
  // Sequences: LINQ operators
  // ---------------------------------------------------------------------

  /** Where(p) */
  function Filter<T(!new)>(s: seq<T>, p: T -> bool): (r: seq<T>)
    ensures |r| <= |s|
    ensures forall x :: x in r <==> x in s && p(x)
    ensures multiset(r) <= multiset(s)
    decreases |s|
  {
    if s == [] then []
    else
      assert s == s[..|s| - 1] + [s[|s| - 1]];
      if p(s[|s| - 1]) then Filter(s[..|s| - 1], p) + [s[|s| - 1]]
    else Filter(s[..|s| - 1], p)
  }

  lemma {:induction false} FilterAppend<T(!new)>(a: seq<T>, b: seq<T>, p: T -> bool)
    ensures Filter(a + b, p) == Filter(a, p) + Filter(b, p)
    decreases |b|
  {
    if b == [] {
      assert a + b == a;
    } else {
      var b' := b[..|b| - 1];
      assert (a + b)[..|a + b| - 1] == a + b';
      assert (a + b)[|a + b| - 1] == b[|b| - 1];
      FilterAppend(a, b', p);
    }
  }

  /** Filtering keeps exactly the multiset of elements satisfying p. */
  lemma {:induction false} FilterMultiset<T(!new)>(s: seq<T>, p: T -> bool, x: T)
    ensures multiset(Filter(s, p))[x] == if p(x) then multiset(s)[x] else 0
    decreases |s|
  {
    if s != [] {
      FilterMultiset(s[..|s| - 1], p, x);
      assert s == s[..|s| - 1] + [s[|s| - 1]];
    }
  }

  /** Where gives the same rows for two conditions that agree on every row. */
  lemma {:induction false} FilterAgree<T(!new)>(s: seq<T>, p: T -> bool, q: T -> bool)
    requires forall x :: x in s ==> p(x) == q(x)
    ensures Filter(s, p) == Filter(s, q)
    decreases |s|
  {
    if s != [] {
      FilterAgree(s[..|s| - 1], p, q);
      assert s[|s| - 1] in s;
    }
  }

  /** Count(p) */
  function Count<T(!new)>(s: seq<T>, p: T -> bool): nat {
    |Filter(s, p)|
  }

  lemma CountAppendOne<T(!new)>(s: seq<T>, x: T, p: T -> bool)
    ensures Count(s + [x], p) == Count(s, p) + (if p(x) then 1 else 0)
  {
    assert (s + [x])[..|s + [x]| - 1] == s;
  }

  /** Any(p) */
  predicate Any<T>(s: seq<T>, p: T -> bool) {
    exists i :: 0 <= i < |s| && p(s[i])
  }

  /** Any over a sequence splits into Any over all but the last element, or the last. */
  lemma AnyOfInit<T>(s: seq<T>, p: T -> bool)
    requires s != []
    ensures Any(s, p) <==> Any(s[..|s| - 1], p) || p(s[|s| - 1])
  {
    var init := s[..|s| - 1];
    if Any(init, p) {
      var k :| 0 <= k < |init| && p(init[k]);
      assert s[k] == init[k];
    }
    if Any(s, p) && !p(s[|s| - 1]) {
      var k :| 0 <= k < |s| && p(s[k]);
      assert init[k] == s[k];
    }
  }

  lemma AnyIffCountPositive<T(!new)>(s: seq<T>, p: T -> bool)
    ensures Any(s, p) <==> Count(s, p) > 0
  {
    if Any(s, p) {
      var i :| 0 <= i < |s| && p(s[i]);
      assert s[i] in Filter(s, p);
    }
    if Count(s, p) > 0 {
      var x := Filter(s, p)[0];
      assert x in s && p(x);
      var i :| 0 <= i < |s| && s[i] == x;
    }
  }

  /** FirstOrDefault(p), as a position. */
  function FirstIndex<T>(s: seq<T>, p: T -> bool): (r: Option<nat>)
    ensures r.Some? ==> r.value < |s| && p(s[r.value]) && forall j :: 0 <= j < r.value ==> !p(s[j])
    ensures r.None? <==> forall j :: 0 <= j < |s| ==> !p(s[j])
    decreases |s|
  {
    if s == [] then None
    else if p(s[0]) then Some(0)
    else match FirstIndex(s[1..], p)
      case None => None
      case Some(k) => Some(k + 1)
  }

  /** Sum(f) */
  function SumOf<T>(s: seq<T>, f: T -> int): int
    decreases |s|
  {
    if s == [] then 0 else SumOf(s[..|s| - 1], f) + f(s[|s| - 1])
  }

  lemma {:induction false} SumOfAppend<T>(a: seq<T>, b: seq<T>, f: T -> int)
    ensures SumOf(a + b, f) == SumOf(a, f) + SumOf(b, f)
    decreases |b|
  {
    if b == [] {
      assert a + b == a;
    } else {
      var b' := b[..|b| - 1];
      assert (a + b)[..|a + b| - 1] == a + b';
      assert (a + b)[|a + b| - 1] == b[|b| - 1];
      SumOfAppend(a, b', f);
    }
  }

  /** A sum does not depend on the order of its terms. */
  lemma {:induction false} SumOfPermutation<T>(a: seq<T>, b: seq<T>, f: T -> int)
    requires multiset(a) == multiset(b)
    ensures SumOf(a, f) == SumOf(b, f)
    decreases |a|
  {
    if a != [] {
      var x := a[|a| - 1];
      assert x in multiset(b);
      var j :| 0 <= j < |b| && b[j] == x;
      assert b == b[..j] + [x] + b[j + 1..];
      var b' := b[..j] + b[j + 1..];
      assert a == a[..|a| - 1] + [x];
      assert multiset(b) == multiset(b[..j]) + multiset{x} + multiset(b[j + 1..]);
      assert multiset(b') == multiset(b[..j]) + multiset(b[j + 1..]);
      assert multiset(a) == multiset(a[..|a| - 1]) + multiset{x};
      forall y ensures multiset(a[..|a| - 1])[y] == multiset(b')[y] {
        assert multiset(b)[y] == multiset(b[..j])[y] + multiset{x}[y] + multiset(b[j + 1..])[y];
        assert multiset(b')[y] == multiset(b[..j])[y] + multiset(b[j + 1..])[y];
        assert multiset(a)[y] == multiset(a[..|a| - 1])[y] + multiset{x}[y];
      }
      SumOfPermutation(a[..|a| - 1], b', f);
      SumOfAppend(b[..j] + [x], b[j + 1..], f);
      SumOfAppend(b[..j], [x], f);
      SumOfAppend(b[..j], b[j + 1..], f);
    }
  }

  /** Skip((pageNumber - 1) * pageSize).Take(pageSize), with LINQ's treatment
      of a negative count as zero. */
  function Page<T>(s: seq<T>, pageNumber: int, pageSize: int): (r: seq<T>)
    ensures |r| <= |s| && (pageSize >= 0 ==> |r| <= pageSize)
    ensures var skip := (pageNumber - 1) * pageSize;
            var start := if skip <= 0 then 0 else if skip >= |s| then |s| else skip;
            start + |r| <= |s| && r == s[start..start + |r|]
  {
    var skip := (pageNumber - 1) * pageSize;
    var start := if skip <= 0 then 0 else if skip >= |s| then |s| else skip;
    var take := if pageSize <= 0 then 0 else pageSize;
    var end := if start + take >= |s| then |s| else start + take;
    s[start..end]
  }

  /** Stand-ins for PostgreSQL's refusal of a negative OFFSET or LIMIT. */
  const MsgNegativeOffset := "OFFSET must not be negative"
  const MsgNegativeLimit := "LIMIT must not be negative"

  /** Skip((pageNumber - 1) * pageSize).Take(pageSize) sent to PostgreSQL: a
      negative offset is refused first, then a negative limit. A query runs
      exactly when the size is zero, or positive with a page number of at
      least one. */
  function PagingError(pageNumber: int, pageSize: int): (r: Option<string>)
    ensures r.None? <==> pageSize == 0 || (pageSize > 0 && pageNumber >= 1)
    ensures r == Some(MsgNegativeLimit) <==> pageSize < 0 && pageNumber <= 1
  {
    if (pageNumber - 1) * pageSize < 0 then Some(MsgNegativeOffset)
    else if pageSize < 0 then Some(MsgNegativeLimit)
    else None
  }

  /** On a positive page size, item i of page p is item (p - 1) * size + i of the whole list. */
  lemma PageItem<T>(s: seq<T>, pageNumber: int, pageSize: int, i: nat)
    requires pageNumber >= 1 && pageSize >= 1
    requires i < pageSize && (pageNumber - 1) * pageSize + i < |s|
    ensures i < |Page(s, pageNumber, pageSize)|
    ensures Page(s, pageNumber, pageSize)[i] == s[(pageNumber - 1) * pageSize + i]
  {
  }

  /** PagedResponse: one page of a listing, the size of the whole listing, and
      the paging parameters echoed back. */
  datatype PagedResponse<T> = PagedResponse(items: seq<T>, totalCount: nat, pageNumber: int, pageSize: int)

  /** A page is a slice of the list: it holds only members of the list, no
      member more often than the list does, in the list's order. */
  lemma PageOfList<T>(s: seq<T>, pageNumber: int, pageSize: int, le: (T, T) -> bool)
    ensures multiset(Page(s, pageNumber, pageSize)) <= multiset(s)
    ensures forall x :: x in Page(s, pageNumber, pageSize) ==> x in s
    ensures SortedBy(s, le) ==> SortedBy(Page(s, pageNumber, pageSize), le)
  {
    var r := Page(s, pageNumber, pageSize);
    var skip := (pageNumber - 1) * pageSize;
    var start := if skip <= 0 then 0 else if skip >= |s| then |s| else skip;
    PageSlice(s, start, |r|);
    assert forall k :: 0 <= k < |r| ==> r[k] == s[start + k];
  }

  lemma PageSlice<T>(all: seq<T>, start: nat, n: nat)
    requires start + n <= |all|
    ensures multiset(all[start..start + n]) <= multiset(all)
  {
    assert all == all[..start] + all[start..start + n] + all[start + n..];
    assert multiset(all) == multiset(all[..start]) + multiset(all[start..start + n]) + multiset(all[start + n..]);
  }

  /** A number larger than every id in use: the model's stand-in for a new Guid. */
  function FreshId(ids: seq<Id>): (r: Id)
    ensures forall k :: 0 <= k < |ids| ==> ids[k] < r
    decreases |ids|
  {
    if ids == [] then 0
    else
      var m := FreshId(ids[..|ids| - 1]);
      if ids[|ids| - 1] + 1 > m then ids[|ids| - 1] + 1 else m
  }

  /** The elements of a sequence are pairwise distinct. */
  predicate Distinct<T(==)>(s: seq<T>) {
    forall i, j :: 0 <= i < j < |s| ==> s[i] != s[j]
  }

  /** The set of elements of a sequence. */
  function Elements<T>(s: seq<T>): set<T> {
    set x | x in s
  }

  /** A sequence has at least as many positions as distinct elements, and
      exactly as many when no element repeats. */
  lemma {:induction false} ElementsCard<T>(s: seq<T>)
    ensures |Elements(s)| <= |s|
    ensures |Elements(s)| == |s| <==> Distinct(s)
    decreases |s|
  {
    if s != [] {
      var init, x := s[..|s| - 1], s[|s| - 1];
      ElementsCard(init);
      assert s == init + [x];
      assert Elements(s) == Elements(init) + {x};
      if x in init {
        var j :| 0 <= j < |init| && init[j] == x;
        assert s[j] == s[|s| - 1];
      } else {
        DistinctSnoc(init, x);
      }
    }
  }

  lemma DistinctSnoc<T>(init: seq<T>, x: T)
    requires x !in init
    ensures Distinct(init + [x]) <==> Distinct(init)
  {
    var s := init + [x];
    if Distinct(init) {
      forall i, j | 0 <= i < j < |s| ensures s[i] != s[j] {
        assert s[i] == init[i];
        if j < |init| {
          assert s[j] == init[j];
        }
      }
    }
    if Distinct(s) {
      forall i, j | 0 <= i < j < |init| ensures init[i] != init[j] {
        assert s[i] == init[i] && s[j] == init[j];
      }
    }
  }

  /** Every two positions of s, the earlier first, are related by ne. */
  predicate Pairwise<T>(s: seq<T>, ne: (T, T) -> bool) {
    forall i, j :: 0 <= i < j < |s| ==> ne(s[i], s[j])
  }

  /** Where(p) keeps a pairwise property: its result is a subsequence. */
  lemma {:induction false} FilterPairwise<T(!new)>(s: seq<T>, p: T -> bool, ne: (T, T) -> bool)
    requires Pairwise(s, ne)
    ensures Pairwise(Filter(s, p), ne)
    decreases |s|
  {
    if s != [] {
      var init, x := s[..|s| - 1], s[|s| - 1];
      forall i, j | 0 <= i < j < |init| ensures ne(init[i], init[j]) {
        assert init[i] == s[i] && init[j] == s[j];
      }
      FilterPairwise(init, p, ne);
      if p(x) {
        var f := Filter(init, p);
        var r := f + [x];
        forall i, j | 0 <= i < j < |r| ensures ne(r[i], r[j]) {
          if j == |r| - 1 {
            assert r[i] == f[i] && f[i] in f;
            var k :| 0 <= k < |init| && init[k] == r[i];
            assert s[k] == r[i] && s[|s| - 1] == r[j];
          } else {
            assert r[i] == f[i] && r[j] == f[j];
          }
        }
      }
    }
  }

  /** Two sequences each pairwise related, every element of the first related
      to every element of the second, concatenate to a pairwise related one. */
  lemma PairwiseAppend<T>(a: seq<T>, b: seq<T>, ne: (T, T) -> bool)
    requires Pairwise(a, ne) && Pairwise(b, ne)
    requires forall i, j :: 0 <= i < |a| && 0 <= j < |b| ==> ne(a[i], b[j])
    ensures Pairwise(a + b, ne)
  {
    var r := a + b;
    forall i, j | 0 <= i < j < |r| ensures ne(r[i], r[j]) {
      if j < |a| {
        assert r[i] == a[i] && r[j] == a[j];
      } else if i < |a| {
        assert r[i] == a[i] && r[j] == b[j - |a|];
      } else {
        assert r[i] == b[i - |a|] && r[j] == b[j - |a|];
      }
    }
  }

  /** Where(q).Where(p) is Where(p) when p already implies q. */
  lemma {:induction false} FilterNarrow<T(!new)>(s: seq<T>, q: T -> bool, p: T -> bool)
    requires forall x :: p(x) ==> q(x)
    ensures Filter(Filter(s, q), p) == Filter(s, p)
    decreases |s|
  {
    if s != [] {
      var init, x := s[..|s| - 1], s[|s| - 1];
      FilterNarrow(init, q, p);
      if q(x) {
        var f := Filter(init, q) + [x];
        assert f[..|f| - 1] == Filter(init, q);
      }
    }
  }

  /** A subset is no larger than its superset, and equally large only when equal. */
  lemma SubsetCard<T>(a: set<T>, b: set<T>)
    requires a <= b
    ensures |a| <= |b|
    ensures |a| == |b| ==> a == b
  {
    assert a * b == a;
    assert |b - a| == |b| - |a|;
    if |a| == |b| {
      assert |b - a| == 0;
      assert b - a == {};
    }
  }

  /** Removing one position keeps a pairwise property. */
  lemma PairwiseRemoveAt<T>(s: seq<T>, k: nat, ne: (T, T) -> bool)
    requires k < |s| && Pairwise(s, ne)
    ensures Pairwise(s[..k] + s[k + 1..], ne)
  {
    var r := s[..k] + s[k + 1..];
    assert forall j :: 0 <= j < |r| ==> r[j] == if j < k then s[j] else s[j + 1];
  }

  /** Where(p) over a sequence none of whose elements satisfies p is empty. */
  lemma FilterNone<T(!new)>(s: seq<T>, p: T -> bool)
    requires forall x :: x in s ==> !p(x)
    ensures Filter(s, p) == []
  {
  }

  /** Where(p) around one position of a sequence. */
  lemma FilterAround<T(!new)>(s: seq<T>, k: nat, x: T, p: T -> bool)
    requires k < |s|
    ensures Filter(s, p) == Filter(s[..k], p) + Filter([s[k]], p) + Filter(s[k + 1..], p)
    ensures Filter(s[k := x], p) == Filter(s[..k], p) + Filter([x], p) + Filter(s[k + 1..], p)
    ensures Filter(s[..k] + s[k + 1..], p) == Filter(s[..k], p) + Filter(s[k + 1..], p)
  {
    assert s == s[..k] + [s[k]] + s[k + 1..];
    assert s[k := x] == s[..k] + [x] + s[k + 1..];
    FilterAppend(s[..k] + [s[k]], s[k + 1..], p);
    FilterAppend(s[..k], [s[k]], p);
    FilterAppend(s[..k] + [x], s[k + 1..], p);
    FilterAppend(s[..k], [x], p);
    FilterAppend(s[..k], s[k + 1..], p);
  }

  /** Rewriting one position moves a count by what that position contributed
    * before and after. */
  lemma CountAfterSet<T(!new)>(s: seq<T>, k: nat, x: T, p: T -> bool)
    requires k < |s|
    ensures Count(s[k := x], p) == Count(s, p) - (if p(s[k]) then 1 else 0) + (if p(x) then 1 else 0)
  {
    FilterAround(s, k, x, p);
    assert [s[k]][..0] == [] && [x][..0] == [];
  }

  lemma SumOfFilterSingle<T(!new)>(x: T, p: T -> bool, f: T -> int)
    ensures SumOf(Filter([x], p), f) == if p(x) then f(x) else 0
  {
    assert [x][..0] == [];
    if p(x) {
      assert Filter([x], p) == [x];
      assert [x][..0] == [];
    }
  }

  /** A filtered sum after removing position k, or replacing it by x, differs
      from the original by that position's term alone. */
  lemma SumOfFilterAt<T(!new)>(s: seq<T>, k: nat, x: T, p: T -> bool, f: T -> int)
    requires k < |s|
    ensures SumOf(Filter(s[..k] + s[k + 1..], p), f)
         == SumOf(Filter(s, p), f) - (if p(s[k]) then f(s[k]) else 0)
    ensures SumOf(Filter(s[k := x], p), f)
         == SumOf(Filter(s, p), f) - (if p(s[k]) then f(s[k]) else 0) + (if p(x) then f(x) else 0)
  {
    FilterAround(s, k, x, p);
    var a, b := Filter(s[..k], p), Filter(s[k + 1..], p);
    var m, n := Filter([s[k]], p), Filter([x], p);
    SumOfFilterSingle(s[k], p, f);
    SumOfFilterSingle(x, p, f);
    SumOfAppend(a, b, f);
    SumOfAppend(a + m, b, f);
    SumOfAppend(a, m, f);
    SumOfAppend(a + n, b, f);
    SumOfAppend(a, n, f);
  }

  /** A filtered sum over a concatenation is the sum of the two filtered sums. */
  lemma SumOfFilterAppend<T(!new)>(a: seq<T>, b: seq<T>, p: T -> bool, f: T -> int)
    ensures SumOf(Filter(a + b, p), f) == SumOf(Filter(a, p), f) + SumOf(Filter(b, p), f)
  {
    FilterAppend(a, b, p);
    SumOfAppend(Filter(a, p), Filter(b, p), f);
  }

  // ---------------------------------------------------------------------
  // Sorting (OrderBy / ThenBy / OrderByDescending)
  // ---------------------------------------------------------------------

  ghost predicate TotalPreorder<T(!new)>(le: (T, T) -> bool) {
    && (forall a, b :: le(a, b) || le(b, a))
    && (forall a, b, c :: le(a, b) && le(b, c) ==> le(a, c))
  }

  predicate SortedBy<T>(s: seq<T>, le: (T, T) -> bool) {
    forall i, j :: 0 <= i < j < |s| ==> le(s[i], s[j])
  }

  function Insert<T(!new)>(x: T, s: seq<T>, le: (T, T) -> bool): (r: seq<T>)
    requires TotalPreorder(le) && SortedBy(s, le)
    ensures SortedBy(r, le) && multiset(r) == multiset(s) + multiset{x}
    decreases |s|
  {
    if s == [] then [x]
    else if le(x, s[0]) then [x] + s
    else
      var t := Insert(x, s[1..], le);
      assert s == [s[0]] + s[1..];
      assert forall k :: 0 <= k < |t| ==> le(s[0], t[k]) by {
        forall k | 0 <= k < |t| ensures le(s[0], t[k]) {
          assert t[k] in multiset(t);
          assert t[k] == x || t[k] in multiset(s[1..]);
        }
      }
      [s[0]] + t
  }

  /** A sorted permutation of s (ties in unspecified but fixed order). */
  function SortBy<T(!new)>(s: seq<T>, le: (T, T) -> bool): (r: seq<T>)
    requires TotalPreorder(le)
    ensures SortedBy(r, le) && multiset(r) == multiset(s) && |r| == |s|
    decreases |s|
  {
    if s == [] then []
    else
      assert s == [s[0]] + s[1..];
      Insert(s[0], SortBy(s[1..], le), le)
  }

  ghost predicate Antisymmetric<T(!new)>(le: (T, T) -> bool) {
    forall a, b :: le(a, b) && le(b, a) ==> a == b
  }

  /** Under a total order two sorted sequences with the same elements are equal. */
  /** The head of a sorted sequence is below every element of it. */
  lemma SortedHeadBelow<T(!new)>(a: seq<T>, y: T, le: (T, T) -> bool)
    requires TotalPreorder(le) && SortedBy(a, le) && y in a
    ensures le(a[0], y)
  {
    var i :| 0 <= i < |a| && a[i] == y;
    if i == 0 {
      assert le(a[0], a[0]);
    }
  }

  lemma DropSameHead<T>(a: seq<T>, b: seq<T>)
    requires a != [] && b != [] && a[0] == b[0] && multiset(a) == multiset(b)
    ensures multiset(a[1..]) == multiset(b[1..])
  {
    assert a == [a[0]] + a[1..];
    assert b == [b[0]] + b[1..];
    forall y ensures multiset(a[1..])[y] == multiset(b[1..])[y] {
      assert multiset(a)[y] == multiset{a[0]}[y] + multiset(a[1..])[y];
      assert multiset(b)[y] == multiset{b[0]}[y] + multiset(b[1..])[y];
    }
  }

  /** Under a total order two sorted sequences with the same elements are equal. */
  lemma {:induction false} SortedUnique<T(!new)>(a: seq<T>, b: seq<T>, le: (T, T) -> bool)
    requires TotalPreorder(le) && Antisymmetric(le)
    requires SortedBy(a, le) && SortedBy(b, le) && multiset(a) == multiset(b)
    ensures a == b
    decreases |a|
  {
    if a != [] {
      assert |b| == |a| by { assert |multiset(a)| == |multiset(b)|; }
      assert a[0] in multiset(b) && b[0] in multiset(a);
      SortedHeadBelow(b, a[0], le);
      SortedHeadBelow(a, b[0], le);
      DropSameHead(a, b);
      SortedUnique(a[1..], b[1..], le);
      assert a == [a[0]] + a[1..] && b == [b[0]] + b[1..];
    }
  }

  /** Ordinal lexicographic order on strings (the comparer used for ordering tokens). */
  predicate LexLe(a: string, b: string) {
    a == [] || (b != [] && (a[0] < b[0] || (a[0] == b[0] && LexLe(a[1..], b[1..]))))
  }

  lemma {:induction false} LexLeTotal(a: string, b: string)
    ensures LexLe(a, b) || LexLe(b, a)
    decreases |a|
  {
    if a != [] && b != [] && a[0] == b[0] {
      LexLeTotal(a[1..], b[1..]);
    }
  }

  lemma {:induction false} LexLeTransitive(a: string, b: string, c: string)
    requires LexLe(a, b) && LexLe(b, c)
    ensures LexLe(a, c)
    decreases |a|
  {
    if a != [] && a[0] == b[0] && b[0] == c[0] {
      LexLeTransitive(a[1..], b[1..], c[1..]);
    }
  }

  lemma {:induction false} LexLeAntisymmetric(a: string, b: string)
    requires LexLe(a, b) && LexLe(b, a)
    ensures a == b
    decreases |a|
  {
    if a != [] {
      LexLeAntisymmetric(a[1..], b[1..]);
      assert a == [a[0]] + a[1..] && b == [b[0]] + b[1..];
    }
  }

  lemma LexLeIsTotalOrder()
    ensures TotalPreorder((a: string, b: string) => LexLe(a, b))
    ensures Antisymmetric((a: string, b: string) => LexLe(a, b))
  {
    forall a: string, b: string ensures LexLe(a, b) || LexLe(b, a) { LexLeTotal(a, b); }
    forall a: string, b: string, c: string | LexLe(a, b) && LexLe(b, c) ensures LexLe(a, c) {
      LexLeTransitive(a, b, c);
    }
    forall a: string, b: string | LexLe(a, b) && LexLe(b, a) ensures a == b {
      LexLeAntisymmetric(a, b);
    }
  }

  /** Strings in ordinal order. */
  function SortStrings(s: seq<string>): (r: seq<string>)
    ensures SortedBy(r, (a: string, b: string) => LexLe(a, b)) && multiset(r) == multiset(s)
  {
    LexLeIsTotalOrder();
    SortBy(s, (a: string, b: string) => LexLe(a, b))
  }

  /** Comparing sorted token lists is comparing the multisets of tokens. */
  lemma SortedStringsEqualIff(a: seq<string>, b: seq<string>)
    ensures SortStrings(a) == SortStrings(b) <==> multiset(a) == multiset(b)
  {
    if multiset(a) == multiset(b) {
      LexLeIsTotalOrder();
      SortedUnique(SortStrings(a), SortStrings(b), (x: string, y: string) => LexLe(x, y));
    }
  }

  // ---------------------------------------------------------------------
  // Numbers as text
  // ---------------------------------------------------------------------

  predicate IsDigit(c: char) {
    '0' <= c <= '9'
  }

  function DigitChar(d: nat): char
    requires d < 10
  {
    ('0' as int + d) as char
  }

  /** Decimal form of a natural number without leading zeros. */
  function NatToString(n: nat): (r: string)
    ensures |r| >= 1 && forall i :: 0 <= i < |r| ==> IsDigit(r[i])
    ensures r[0] == '0' ==> n == 0
  {
    if n < 10 then [DigitChar(n)] else NatToString(n / 10) + [DigitChar(n % 10)]
  }

  /** Decimal form of an integer: `${n}` in JavaScript, Int32.ToString() in .NET. */
  function IntToString(n: int): string {
    if n < 0 then "-" + NatToString(-n) else NatToString(n)
  }

  function DigitValue(c: char): (d: nat)
    requires IsDigit(c)
    ensures d < 10 && DigitChar(d) == c
  {
    c as int - '0' as int
  }

  function DigitsValue(s: string): nat
    requires forall i :: 0 <= i < |s| ==> IsDigit(s[i])
    decreases |s|
  {
    if s == [] then 0 else DigitsValue(s[..|s| - 1]) * 10 + DigitValue(s[|s| - 1])
  }

  lemma {:induction false} DigitsValueOfNatToString(n: nat)
    ensures DigitsValue(NatToString(n)) == n
  {
    if n >= 10 {
      var s := NatToString(n);
      assert s[..|s| - 1] == NatToString(n / 10);
      DigitsValueOfNatToString(n / 10);
    }
  }

  const Int32Min: int := -0x8000_0000
  const Int32Max: int := 0x7FFF_FFFF

  predicate AllDigits(s: string) {
    forall i :: 0 <= i < |s| ==> IsDigit(s[i])
  }

  /** int.TryParse on an already trimmed string: an optional sign and at least
      one ASCII digit, within the range of a 32-bit int. */
  function ParseInt(s: string): (r: Option<int>)
    ensures r.Some? ==> Int32Min <= r.value <= Int32Max
  {
    var neg := |s| > 0 && s[0] == '-';
    var digits := if |s| > 0 && (s[0] == '-' || s[0] == '+') then s[1..] else s;
    if digits == [] || !AllDigits(digits) then None
    else
      var v: int := if neg then 0 - (DigitsValue(digits) as int) else DigitsValue(digits);
      if Int32Min <= v <= Int32Max then Some(v) else None
  }

  /** Parsing the decimal form of a 32-bit integer gives the integer back. */
  lemma ParseIntOfIntToString(n: int)
    requires Int32Min <= n <= Int32Max
    ensures ParseInt(IntToString(n)) == Some(n)
  {
    var s := IntToString(n);
    if n < 0 {
      var t := NatToString(-n);
      DigitsValueOfNatToString(-n);
      assert s == "-" + t && s[0] == '-';
      assert s[1..] == t;
      assert AllDigits(t);
    } else {
      DigitsValueOfNatToString(n);
      assert s == NatToString(n);
      assert IsDigit(s[0]);
      assert AllDigits(s);
    }
  }
}
