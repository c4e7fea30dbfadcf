/** The error message the loader raises for a language without a data
    file: it names the language and lists the available language stems,
    sorted as Python sorts strings and joined with ", ". */
module Languages {

  /** Python's `a <= b` on strings: lexicographic by code point, a
      proper prefix comes first. */
  predicate AtMost(a: string, b: string)
  {
    |a| == 0 || (|b| > 0 && (a[0] < b[0] || (a[0] == b[0] && AtMost(a[1..], b[1..]))))
  }

  /** A prefix comes before every string it begins; a string never comes
      before its own proper prefix. */
  lemma {:induction false} AtMostPrefix(a: string, b: string)
    ensures a <= b ==> AtMost(a, b)
    ensures b < a ==> !AtMost(a, b)
  {
    if |a| > 0 && |b| > 0 && a[0] == b[0] {
      AtMostPrefix(a[1..], b[1..]);
      assert a <= b ==> a[1..] <= b[1..];
      assert b < a ==> b[1..] < a[1..];
    }
  }

  lemma {:induction false} AtMostTotal(a: string, b: string)
    ensures AtMost(a, b) || AtMost(b, a)
  {
    if |a| > 0 && |b| > 0 && a[0] == b[0] {
      AtMostTotal(a[1..], b[1..]);
    }
  }

  lemma {:induction false} AtMostTransitive(a: string, b: string, c: string)
    requires AtMost(a, b) && AtMost(b, c)
    ensures AtMost(a, c)
  {
    if |a| > 0 && a[0] == b[0] && b[0] == c[0] {
      AtMostTransitive(a[1..], b[1..], c[1..]);
    }
  }

  lemma {:induction false} AtMostAntisymmetric(a: string, b: string)
    requires AtMost(a, b) && AtMost(b, a)
    ensures a == b
  {
    if |a| > 0 {
      AtMostAntisymmetric(a[1..], b[1..]);
      assert a == [a[0]] + a[1..];
      assert b == [b[0]] + b[1..];
    }
  }

  ghost predicate Sorted(xs: seq<string>)
  {
    forall i, j :: 0 <= i < j < |xs| ==> AtMost(xs[i], xs[j])
  }

  /** `x` may go in front of a sorted list whose head it does not exceed. */
  lemma SortedCons(x: string, xs: seq<string>)
    requires Sorted(xs) && xs != [] && AtMost(x, xs[0])
    ensures Sorted([x] + xs)
  {
    forall j | 0 <= j < |xs| ensures AtMost(x, xs[j]) {
      if j > 0 { AtMostTransitive(x, xs[0], xs[j]); }
    }
  }

  /** The head of a sorted list may go in front of the rest with `x`
      inserted, when `x` exceeds it. */
  lemma SortedConsInserted(x: string, xs: seq<string>, rest: seq<string>)
    requires Sorted(xs) && xs != [] && !AtMost(x, xs[0])
    requires Sorted(rest) && multiset(rest) == multiset(xs[1..]) + multiset{x}
    ensures Sorted([xs[0]] + rest)
  {
    forall j | 0 <= j < |rest| ensures AtMost(xs[0], rest[j]) {
      assert rest[j] in multiset(rest);
      if rest[j] == x {
        AtMostTotal(x, xs[0]);
      } else {
        assert rest[j] in multiset(xs[1..]);
        var m :| 0 <= m < |xs[1..]| && xs[1..][m] == rest[j];
        assert xs[m + 1] == rest[j];
      }
    }
  }

  /** Places `x` in front of the first element it does not exceed. */
  function Insert(x: string, xs: seq<string>): (r: seq<string>)
    requires Sorted(xs)
    ensures Sorted(r)
    ensures |r| == |xs| + 1
    ensures multiset(r) == multiset(xs) + multiset{x}
  {
    if xs == [] then [x]
    else if AtMost(x, xs[0]) then
      SortedCons(x, xs);
      [x] + xs
    else
      var rest := Insert(x, xs[1..]);
      assert xs == [xs[0]] + xs[1..];
      SortedConsInserted(x, xs, rest);
      [xs[0]] + rest
  }

  /** `sorted(stems)`: the stems in ascending order, each as often as it
      is given. */
  function SortStems(stems: seq<string>): (r: seq<string>)
    ensures Sorted(r)
    ensures |r| == |stems|
    ensures multiset(r) == multiset(stems)
  {
    if stems == [] then []
    else
      assert stems == [stems[0]] + stems[1..];
      Insert(stems[0], SortStems(stems[1..]))
  }

  /** The first element of a sorted sequence is at most every element. */
  lemma SortedFirst(a: seq<string>, x: string)
    requires Sorted(a) && x in a
    ensures AtMost(a[0], x)
  {
    var i :| 0 <= i < |a| && a[i] == x;
    if i > 0 {
      assert AtMost(a[0], a[i]);
    } else {
      AtMostTotal(x, x);
    }
  }

  lemma SortedTail(a: seq<string>)
    requires Sorted(a) && a != []
    ensures Sorted(a[1..])
  {
    forall i, j | 0 <= i < j < |a| - 1 ensures AtMost(a[1..][i], a[1..][j]) {
      assert a[1..][i] == a[i + 1] && a[1..][j] == a[j + 1];
    }
  }

  /** There is one sorted order of a collection of strings, so Python's
      `sorted` and `SortStems` agree whatever order the stems come in. */
  lemma {:induction false} SortedUnique(a: seq<string>, b: seq<string>)
    requires Sorted(a) && Sorted(b)
    requires multiset(a) == multiset(b)
    ensures a == b
  {
    if a != [] {
      assert a[0] in multiset(b);
      assert b[0] in multiset(a);
      SortedFirst(a, b[0]);
      SortedFirst(b, a[0]);
      AtMostAntisymmetric(a[0], b[0]);
      assert a == [a[0]] + a[1..];
      assert b == [b[0]] + b[1..];
      assert multiset(a[1..]) == multiset(a) - multiset{a[0]};
      assert multiset(b[1..]) == multiset(b) - multiset{b[0]};
      SortedTail(a);
      SortedTail(b);
      SortedUnique(a[1..], b[1..]);
    }
  }

  lemma SortStemsAnyOrder(stems: seq<string>, other: seq<string>)
    requires multiset(stems) == multiset(other)
    ensures SortStems(stems) == SortStems(other)
  {
    SortedUnique(SortStems(stems), SortStems(other));
  }

  /** The total length of the strings in `xs`. */
  function LengthSum(xs: seq<string>): nat
  {
    if xs == [] then 0 else |xs[0]| + LengthSum(xs[1..])
  }

  /** `sep.join(xs)`: the elements' characters plus one separator between
      each pair of neighbours. */
  function Join(xs: seq<string>, sep: string): (r: string)
    ensures xs == [] ==> r == ""
  {
    if |xs| == 0 then ""
    else if |xs| == 1 then xs[0]
    else xs[0] + sep + Join(xs[1..], sep)
  }

  /** The joined string is as long as the elements plus one separator
      between each pair of neighbours. */
  lemma {:induction false} JoinLength(xs: seq<string>, sep: string)
    requires xs != []
    ensures |Join(xs, sep)| == LengthSum(xs) + (|xs| - 1) * |sep|
  {
    if |xs| > 1 {
      JoinLength(xs[1..], sep);
      assert (|xs| - 1) * |sep| == |sep| + (|xs| - 2) * |sep|;
    }
  }

  /** Where the `k`-th element starts in `Join(xs, sep)`. */
  function JoinOffset(xs: seq<string>, sep: string, k: nat): nat
    requires k < |xs|
  {
    if k == 0 then 0 else |xs[0]| + |sep| + JoinOffset(xs[1..], sep, k - 1)
  }

  /** `s` occurs in `msg` starting at `start`. */
  predicate OccursAt(msg: string, s: string, start: nat)
  {
    start + |s| <= |msg| && forall i :: 0 <= i < |s| ==> msg[start + i] == s[i]
  }

  /** An occurrence stays one, shifted, behind a prefix. */
  lemma OccursAfter(prefix: string, msg: string, s: string, start: nat)
    requires OccursAt(msg, s, start)
    ensures OccursAt(prefix + msg, s, |prefix| + start)
  {
  }

  /** The joined string holds every element at its offset, and ends with
      the last one. */
  lemma {:induction false} JoinElement(xs: seq<string>, sep: string, k: nat)
    requires k < |xs|
    ensures OccursAt(Join(xs, sep), xs[k], JoinOffset(xs, sep, k))
    ensures k + 1 == |xs| ==> JoinOffset(xs, sep, k) + |xs[k]| == |Join(xs, sep)|
  {
    if |xs| > 1 {
      var tail := Join(xs[1..], sep);
      assert Join(xs, sep) == (xs[0] + sep) + tail;
      if k > 0 {
        JoinElement(xs[1..], sep, k - 1);
        OccursAfter(xs[0] + sep, tail, xs[k], JoinOffset(xs[1..], sep, k - 1));
      }
    }
  }

  /** Between two neighbours the joined string holds exactly one
      separator. */
  lemma {:induction false} JoinSeparator(xs: seq<string>, sep: string, k: nat)
    requires k + 1 < |xs|
    ensures JoinOffset(xs, sep, k + 1) == JoinOffset(xs, sep, k) + |xs[k]| + |sep|
    ensures OccursAt(Join(xs, sep), sep, JoinOffset(xs, sep, k) + |xs[k]|)
  {
    var tail := Join(xs[1..], sep);
    assert Join(xs, sep) == (xs[0] + sep) + tail;
    if k > 0 {
      JoinSeparator(xs[1..], sep, k - 1);
      OccursAfter(xs[0] + sep, tail, sep, JoinOffset(xs[1..], sep, k - 1) + |xs[k]|);
    }
  }

  const Separator := ", "

  /** "Language '<language>' is not supported. Available languages: "
      without the listing. */
  function Header(language: string): string
  {
    "Language '" + language + "' is not supported. Available languages: "
  }

  /** The available languages: the stems in ascending order, joined by
      ", ". */
  function Listing(stems: seq<string>): string
  {
    Join(SortStems(stems), Separator)
  }

  /** The ValueError message for `language`, given the stems of the data
      files that exist. */
  function UnsupportedMessage(language: string, stems: seq<string>): (r: string)
    ensures |r| == |Header(language)| + |Listing(stems)|
    ensures OccursAt(r, Header(language), 0)
    ensures OccursAt(r, language, 10)
    ensures OccursAt(r, Listing(stems), |Header(language)|)
  {
    Header(language) + Listing(stems)
  }

  /** The message starts by naming the language. */
  lemma UnsupportedMessageNamesLanguage(language: string, stems: seq<string>)
    ensures |UnsupportedMessage(language, stems)| >= 10 + |language|
    ensures UnsupportedMessage(language, stems)[..10] == "Language '"
    ensures UnsupportedMessage(language, stems)[10..10 + |language|] == language
  {
    var msg := UnsupportedMessage(language, stems);
    assert msg == "Language '" + language + ("' is not supported. Available languages: " + Listing(stems));
  }

  /** The first position of `s` in `xs`. */
  function IndexOf(xs: seq<string>, s: string): (k: nat)
    requires s in xs
    ensures k < |xs| && xs[k] == s
  {
    if xs[0] == s then 0 else 1 + IndexOf(xs[1..], s)
  }

  /** Each available stem appears in the listing, at its place in the
      ascending order. */
  lemma ListingHasStem(stems: seq<string>, s: string)
    requires s in stems
    ensures s in SortStems(stems)
    ensures OccursAt(Listing(stems), s, JoinOffset(SortStems(stems), Separator, IndexOf(SortStems(stems), s)))
  {
    assert s in multiset(SortStems(stems));
    JoinElement(SortStems(stems), Separator, IndexOf(SortStems(stems), s));
  }

  /** The message does not depend on the order the directory listing
      returns the stems in. */
  lemma UnsupportedMessageAnyOrder(language: string, stems: seq<string>, other: seq<string>)
    requires multiset(stems) == multiset(other)
    ensures UnsupportedMessage(language, stems) == UnsupportedMessage(language, other)
  {
    SortStemsAnyOrder(stems, other);
  }
}
