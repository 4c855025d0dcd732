/**
 Access lists: what an entry may say, how entries become sorted spans, and how
 an ID is looked up in them.
 */
module Access {
  import opened Wrappers
  import opened Bytes
  import opened Decimal

  datatype Kind = Registration | Subscriber | Talkgroup

  /** The greatest ID each kind of packet has room for. */
  function Ceiling(kind: Kind): Word {
    if kind == Registration then 0xFFFF_FFFF else 0xFF_FFFF
  }

  const PERMIT := "permit"
  const DENY := "deny"

  datatype Span = Span(lo: Word, hi: Word)

  /** A list nobody has parsed lets every ID through. */
  datatype List = List(mode: string, spans: seq<Span>)

  const ZERO_LIST := List("", [])

  datatype Error =
    | BadMode(mode: string)
    | PermitsNothing
    | EmptyEntry
    | MissingNumber(entry: string)
    | NotANumber(entry: string)
    | TooLarge(num: string, ceiling: Word)
    | ZeroStation
    | Backwards(entry: string, high: Word, low: Word)

  // ---- entries

  /** strconv.ParseUint(num, 10, 64), for a string of digits. */
  function ParseUint64(num: string): Result<nat, Error>
    requires AllDigits(num)
  {
    if ValueOf(num) < 0x1_0000_0000_0000_0000 then Ok(ValueOf(num)) else Err(NotANumber(num))
  }

  function ParseID(kind: Kind, num: string, entry: string): Result<Word, Error> {
    if num == "" then Err(MissingNumber(entry))
    else if !AllDigits(num) then Err(NotANumber(entry))
    else
      var id := ParseUint64(num);
      if id.Err? || id.value > Ceiling(kind) then Err(TooLarge(num, Ceiling(kind)))
      else if id.value == 0 then Err(ZeroStation)
      else Ok(id.value)
  }

  /** The place of the first hyphen, or the length when there is none. */
  function Hyphen(s: string): (i: nat)
    ensures i <= |s|
    ensures forall k :: 0 <= k < i ==> s[k] != '-'
    ensures i < |s| ==> s[i] == '-'
  {
    if s == [] || s[0] == '-' then 0 else 1 + Hyphen(s[1..])
  }

  function ParseEntry(kind: Kind, raw: string): Result<Span, Error> {
    if TrimSpace(raw) == "" then Err(EmptyEntry) else ParseTrimmed(kind, TrimSpace(raw))
  }

  function ParseTrimmed(kind: Kind, entry: string): Result<Span, Error> {
    var cut := Hyphen(entry);
    if cut == |entry| then
      match ParseID(kind, entry, entry)
      case Ok(id) => Ok(Span(id, id))
      case Err(e) => Err(e)
    else
      match ParseID(kind, entry[..cut], entry)
      case Err(e) => Err(e)
      case Ok(low) =>
        match ParseID(kind, entry[cut + 1..], entry)
        case Err(e) => Err(e)
        case Ok(high) => if low > high then Err(Backwards(entry, high, low)) else Ok(Span(low, high))
  }

  /** A numeral for v, with leading zeros allowed, that the field can carry. */
  ghost predicate Numeral(kind: Kind, s: string, v: Word) {
    s != "" && AllDigits(s) && ValueOf(s) == v && 1 <= v <= Ceiling(kind)
  }

  /** The grammar: one numeral or two with a hyphen, and white space only around the whole. */
  ghost predicate SpelledBy(kind: Kind, raw: string, s: Span, pre: string, a: string, b: string, post: string) {
    && AllSpace(pre) && AllSpace(post)
    && Numeral(kind, a, s.lo) && Numeral(kind, b, s.hi) && s.lo <= s.hi
    && (raw == pre + (a + "-" + b) + post || (a == b && raw == pre + a + post))
  }

  ghost predicate Spells(kind: Kind, raw: string, s: Span) {
    exists pre: string, a: string, b: string, post: string :: SpelledBy(kind, raw, s, pre, a, b, post)
  }

  lemma ParsedEntryIsSpelled(kind: Kind, raw: string, s: Span)
    requires ParseEntry(kind, raw) == Ok(s)
    ensures Spells(kind, raw, s)
  {
    var pre, post := TrimParts(raw);
    var a, b := TrimmedIsSpelled(kind, TrimSpace(raw), s);
    assert SpelledBy(kind, raw, s, pre, a, b, post);
  }

  lemma TrimmedIsSpelled(kind: Kind, entry: string, s: Span) returns (a: string, b: string)
    requires ParseTrimmed(kind, entry) == Ok(s)
    ensures Numeral(kind, a, s.lo) && Numeral(kind, b, s.hi) && s.lo <= s.hi
    ensures entry == a + "-" + b || (a == b && entry == a)
  {
    var cut := Hyphen(entry);
    if cut == |entry| {
      ParsedNumeral(kind, entry, entry, s.lo);
      a, b := entry, entry;
    } else {
      a, b := entry[..cut], entry[cut + 1..];
      ParsedNumeral(kind, a, entry, s.lo);
      ParsedNumeral(kind, b, entry, s.hi);
    }
  }

  lemma ParsedNumeral(kind: Kind, num: string, entry: string, v: Word)
    ensures ParseID(kind, num, entry) == Ok(v) <==> Numeral(kind, num, v)
  {
  }

  lemma SpelledEntryIsParsed(kind: Kind, raw: string, s: Span)
    requires Spells(kind, raw, s)
    ensures ParseEntry(kind, raw) == Ok(s)
  {
    var pre: string, a: string, b: string, post: string :| SpelledBy(kind, raw, s, pre, a, b, post);
    if raw == pre + (a + "-" + b) + post {
      RangeIsParsed(kind, pre, a, b, post, s);
    } else {
      TrimSpaceDrops(pre, a, post);
      assert Hyphen(a) == |a|;
    }
  }

  lemma RangeIsParsed(kind: Kind, pre: string, a: string, b: string, post: string, s: Span)
    requires AllSpace(pre) && AllSpace(post)
    requires Numeral(kind, a, s.lo) && Numeral(kind, b, s.hi) && s.lo <= s.hi
    ensures ParseEntry(kind, pre + (a + "-" + b) + post) == Ok(s)
  {
    var body := a + "-" + b;
    assert body[0] == a[0] && body[|body| - 1] == b[|b| - 1] && body[|a|] == '-';
    TrimSpaceDrops(pre, body, post);
    FirstHyphen(a, b);
    assert body[..|a|] == a && body[|a| + 1..] == b;
  }

  lemma FirstHyphen(a: string, b: string)
    requires AllDigits(a)
    ensures Hyphen(a + "-" + b) == |a|
  {
    var body := a + "-" + b;
    assert body[|a|] == '-';
    assert forall k :: 0 <= k < |a| ==> body[k] == a[k];
  }

  /** An entry is accepted exactly when the grammar spells the span it becomes. */
  lemma EntryGrammar(kind: Kind, raw: string, s: Span)
    ensures ParseEntry(kind, raw) == Ok(s) <==> Spells(kind, raw, s)
  {
    if ParseEntry(kind, raw) == Ok(s) {
      ParsedEntryIsSpelled(kind, raw, s);
    }
    if Spells(kind, raw, s) {
      SpelledEntryIsParsed(kind, raw, s);
    }
  }

  // ---- spans

  predicate InSpan(s: Span, id: int) {
    s.lo <= id <= s.hi
  }

  predicate Names(spans: seq<Span>, id: int) {
    exists i :: 0 <= i < |spans| && InSpan(spans[i], id)
  }

  ghost predicate Forward(spans: seq<Span>) {
    forall i :: 0 <= i < |spans| ==> spans[i].lo <= spans[i].hi
  }

  /** Sorted, and between any two spans an ID that neither names. */
  ghost predicate Canonical(spans: seq<Span>) {
    && Forward(spans)
    && forall i, j :: 0 <= i < j < |spans| ==> spans[i].hi + 1 < spans[j].lo
  }

  lemma SameFirstSpan(a: seq<Span>, b: seq<Span>)
    requires Canonical(a) && Canonical(b) && a != [] && b != []
    requires forall id: int :: Names(a, id) <==> Names(b, id)
    ensures a[0] == b[0]
  {
    assert InSpan(a[0], a[0].lo) && InSpan(b[0], b[0].lo);
    assert Names(a, a[0].lo) && Names(b, b[0].lo);
    assert a[0].lo == b[0].lo;
    GapAfterFirst(a);
    GapAfterFirst(b);
    assert !InSpan(b[0], a[0].hi + 1) && !InSpan(a[0], b[0].hi + 1);
  }

  lemma GapAfterFirst(a: seq<Span>)
    requires Canonical(a) && a != []
    ensures !Names(a, a[0].hi + 1)
  {
  }

  lemma NamesInTail(a: seq<Span>, id: int)
    requires Canonical(a) && a != []
    ensures Names(a[1..], id) <==> Names(a, id) && a[0].hi < id
  {
    if Names(a[1..], id) {
      var i :| 0 <= i < |a[1..]| && InSpan(a[1..][i], id);
      assert InSpan(a[i + 1], id);
    }
    if Names(a, id) && a[0].hi < id {
      var i :| 0 <= i < |a| && InSpan(a[i], id);
      assert a[1..][i - 1] == a[i];
    }
  }

  lemma FirstIsNamed(a: seq<Span>)
    requires Canonical(a)
    ensures a != [] ==> Names(a, a[0].lo)
  {
    if a != [] {
      assert InSpan(a[0], a[0].lo);
    }
  }

  /** A set of IDs has one canonical form. */
  lemma {:induction false} CanonicalIsUnique(a: seq<Span>, b: seq<Span>)
    requires Canonical(a) && Canonical(b)
    requires forall id: int :: Names(a, id) <==> Names(b, id)
    ensures a == b
  {
    FirstIsNamed(a);
    FirstIsNamed(b);
    if a != [] && b != [] {
      SameFirstSpan(a, b);
      forall id: int ensures Names(a[1..], id) <==> Names(b[1..], id) {
        NamesInTail(a, id);
        NamesInTail(b, id);
      }
      CanonicalIsUnique(a[1..], b[1..]);
    }
  }

  // ---- merging in place

  predicate Before(s: Span, t: Span) {
    s.lo < t.lo || (s.lo == t.lo && s.hi <= t.hi)
  }

  ghost predicate SortedSpans(spans: seq<Span>) {
    forall i, j :: 0 <= i < j < |spans| ==> Before(spans[i], spans[j])
  }

  /** Stands for sort.Slice, whose result any sort by this order gives. */
  method SortSpans(a: array<Span>)
    modifies a
    ensures SortedSpans(a[..]) && multiset(a[..]) == multiset(old(a[..]))
  {
    for i := 0 to a.Length
      invariant SortedSpans(a[..i])
      invariant multiset(a[..]) == multiset(old(a[..]))
    {
      var j := i;
      while j > 0 && !Before(a[j - 1], a[j])
        invariant 0 <= j <= i
        invariant forall x, y :: 0 <= x < y <= i && y != j ==> Before(a[x], a[y])
        invariant multiset(a[..]) == multiset(old(a[..]))
      {
        ghost var was := a[..];
        a[j - 1], a[j] := a[j], a[j - 1];
        j := j - 1;
      }
    }
    assert a[..a.Length] == a[..];
  }

  lemma NamesSnoc(spans: seq<Span>, s: Span, id: int)
    ensures Names(spans + [s], id) <==> Names(spans, id) || InSpan(s, id)
  {
    var all := spans + [s];
    if i :| 0 <= i < |spans| && InSpan(spans[i], id) {
      assert all[i] == spans[i];
    }
    if InSpan(s, id) {
      assert all[|spans|] == s;
    }
  }

  /** Growing the last span takes in exactly the IDs of the span it absorbs. */
  lemma NamesGrown(front: seq<Span>, last: Span, s: Span, id: int)
    requires last.lo <= s.lo <= last.hi + 1 && last.lo <= last.hi && s.lo <= s.hi
    ensures Names(front + [Span(last.lo, if s.hi > last.hi then s.hi else last.hi)], id)
       <==> Names(front + [last], id) || InSpan(s, id)
  {
    NamesSnoc(front, last, id);
    NamesSnoc(front, Span(last.lo, if s.hi > last.hi then s.hi else last.hi), id);
  }

  /** One turn of the compaction: the next span in order is absorbed or appended. */
  function Fold(out: seq<Span>, s: Span): seq<Span>
    requires out != []
  {
    var last := out[|out| - 1];
    // The sum is taken in 32 bits; it can only wrap where the comparison before it holds.
    if s.lo <= last.hi || s.lo == (last.hi + 1) % 0x1_0000_0000 then
      out[|out| - 1 := Span(last.lo, if s.hi > last.hi then s.hi else last.hi)]
    else
      out + [s]
  }

  function FoldAll(out: seq<Span>, rest: seq<Span>): (r: seq<Span>)
    requires out != []
    ensures r != []
    decreases |rest|
  {
    if rest == [] then out else FoldAll(Fold(out, rest[0]), rest[1..])
  }

  /** Nothing still to come starts before the last span kept. */
  ghost predicate Follows(out: seq<Span>, rest: seq<Span>) {
    out != [] && forall k :: 0 <= k < |rest| ==> out[|out| - 1].lo <= rest[k].lo
  }

  lemma FoldKeepsForm(out: seq<Span>, s: Span)
    requires Canonical(out) && Follows(out, [s]) && s.lo <= s.hi
    ensures Canonical(Fold(out, s)) && Fold(out, s)[|Fold(out, s)| - 1].lo <= s.lo
  {
    assert [s][0] == s;
  }

  lemma FoldKeepsIDs(out: seq<Span>, s: Span, id: int)
    requires Canonical(out) && Follows(out, [s]) && s.lo <= s.hi
    ensures Names(Fold(out, s), id) <==> Names(out, id) || InSpan(s, id)
  {
    assert [s][0] == s;
    var front, last := out[..|out| - 1], out[|out| - 1];
    assert out == front + [last];
    if s.lo <= last.hi || s.lo == (last.hi + 1) % 0x1_0000_0000 {
      NamesGrown(front, last, s, id);
      assert Fold(out, s) == front + [Span(last.lo, if s.hi > last.hi then s.hi else last.hi)];
    } else {
      NamesSnoc(out, s, id);
    }
  }

  lemma NamesCons(s: Span, rest: seq<Span>, id: int)
    ensures Names([s] + rest, id) <==> InSpan(s, id) || Names(rest, id)
  {
    var all := [s] + rest;
    if InSpan(s, id) {
      assert all[0] == s;
    }
    if i :| 0 <= i < |rest| && InSpan(rest[i], id) {
      assert all[i + 1] == rest[i];
    }
  }

  /** Folding sorted spans gives the canonical form of all of them. */
  lemma {:induction false} FoldAllIsCanonical(out: seq<Span>, rest: seq<Span>)
    requires Canonical(out) && Forward(rest) && SortedSpans(rest) && Follows(out, rest)
    ensures Canonical(FoldAll(out, rest))
    decreases |rest|
  {
    if rest != [] {
      FoldKeepsForm(out, rest[0]);
      FoldAllIsCanonical(Fold(out, rest[0]), rest[1..]);
    }
  }

  lemma {:induction false} FoldAllKeepsIDs(out: seq<Span>, rest: seq<Span>, id: int)
    requires Canonical(out) && Forward(rest) && SortedSpans(rest) && Follows(out, rest)
    ensures Names(FoldAll(out, rest), id) <==> Names(out, id) || Names(rest, id)
    decreases |rest|
  {
    if rest != [] {
      FoldKeepsForm(out, rest[0]);
      FoldKeepsIDs(out, rest[0], id);
      FoldAllKeepsIDs(Fold(out, rest[0]), rest[1..], id);
      assert rest == [rest[0]] + rest[1..];
      NamesCons(rest[0], rest[1..], id);
    }
  }

  /** One turn of the loop, in the array: the span read at i changes the first n or is appended to them. */
  method FoldInto(a: array<Span>, n: nat, i: nat) returns (m: nat)
    requires 1 <= n <= i < a.Length
    modifies a
    ensures 1 <= m <= i + 1 && a[..m] == Fold(old(a[..n]), old(a[i]))
    ensures a[i + 1..] == old(a[i + 1..])
  {
    var s, last := a[i], a[n - 1];
    if s.lo <= last.hi || s.lo == (last.hi + 1) % 0x1_0000_0000 {
      if s.hi > last.hi {
        a[n - 1] := Span(last.lo, s.hi);
      }
      m := n;
      assert a[..m] == old(a[..n])[n - 1 := Span(last.lo, if s.hi > last.hi then s.hi else last.hi)];
    } else {
      a[n] := s;
      m := n + 1;
      assert a[..m] == old(a[..n]) + [s];
    }
  }

  /** Compacts into the front of the array it is reading; n spans are left there. */
  method Compact(a: array<Span>) returns (n: nat)
    requires a.Length > 0
    modifies a
    ensures n <= a.Length && a[..n] == FoldAll(old(a[..1]), old(a[1..]))
  {
    n := 1;
    for i := 1 to a.Length
      invariant 1 <= n <= i
      invariant a[i..] == old(a[..])[i..]
      invariant FoldAll(a[..n], a[i..]) == FoldAll(old(a[..1]), old(a[1..]))
    {
      assert a[i] == a[i..][0] && a[i + 1..] == a[i..][1..];
      n := FoldInto(a, n, i);
    }
  }

  /** Sorts and coalesces; what is left is the canonical form of the same IDs. */
  method Merge(a: array<Span>) returns (n: nat)
    requires Forward(a[..])
    modifies a
    ensures n <= a.Length && Canonical(a[..n])
    ensures forall id: int :: Names(a[..n], id) <==> Names(old(a[..]), id)
  {
    if a.Length == 0 {
      return 0;
    }
    SortSpans(a);
    ghost var sorted := a[..];
    SameNames(old(a[..]), sorted);
    n := Compact(a);
    SortedHeadFollows(sorted);
    FoldAllIsCanonical(sorted[..1], sorted[1..]);
    forall id: int ensures Names(a[..n], id) <==> Names(sorted, id) {
      FoldAllKeepsIDs(sorted[..1], sorted[1..], id);
      NamesCons(sorted[0], sorted[1..], id);
      NamesCons(sorted[0], [], id);
      assert sorted == [sorted[0]] + sorted[1..] && sorted[..1] == [sorted[0]] + [];
    }
  }

  lemma SortedHeadFollows(sorted: seq<Span>)
    requires sorted != [] && Forward(sorted) && SortedSpans(sorted)
    ensures Canonical(sorted[..1]) && Forward(sorted[1..]) && SortedSpans(sorted[1..]) && Follows(sorted[..1], sorted[1..])
  {
  }

  lemma SameNames(a: seq<Span>, b: seq<Span>)
    requires multiset(a) == multiset(b)
    ensures forall id: int :: Names(a, id) <==> Names(b, id)
    ensures Forward(a) <==> Forward(b)
  {
    forall s ensures s in a <==> s in b {
      assert s in multiset(a) <==> s in multiset(b);
    }
    forall id: int ensures Names(a, id) <==> Names(b, id) {
      assert Names(a, id) <==> exists s :: s in a && InSpan(s, id);
      assert Names(b, id) <==> exists s :: s in b && InSpan(s, id);
    }
    assert Forward(a) <==> forall s :: s in a ==> s.lo <= s.hi;
    assert Forward(b) <==> forall s :: s in b ==> s.lo <= s.hi;
  }

  // ---- parsing

  function EffectiveMode(mode: string): string {
    if mode == "" then DENY else mode
  }

  predicate ModeKnown(mode: string) {
    mode == "" || mode == DENY || mode == PERMIT
  }

  predicate EntriesParse(kind: Kind, entries: seq<string>) {
    forall i :: 0 <= i < |entries| ==> ParseEntry(kind, entries[i]).Ok?
  }

  /** Some entry, as written, covers the ID. */
  ghost predicate Denotes(kind: Kind, entries: seq<string>, id: int) {
    exists i :: 0 <= i < |entries| && ParseEntry(kind, entries[i]).Ok? && InSpan(ParseEntry(kind, entries[i]).value, id)
  }

  predicate Accepts(kind: Kind, mode: string, entries: seq<string>) {
    ModeKnown(mode) && !(mode == PERMIT && entries == []) && EntriesParse(kind, entries)
  }

  /** What a parsed list is: the mode, and the canonical form of the IDs the entries cover. */
  ghost predicate IsParsed(kind: Kind, mode: string, entries: seq<string>, l: List) {
    && Accepts(kind, mode, entries)
    && l.mode == EffectiveMode(mode)
    && Canonical(l.spans)
    && forall id: int :: Names(l.spans, id) <==> Denotes(kind, entries, id)
  }

  method Parse(kind: Kind, mode: string, entries: seq<string>) returns (r: Result<List, Error>)
    ensures r.Ok? <==> Accepts(kind, mode, entries)
    ensures r.Ok? ==> IsParsed(kind, mode, entries, r.value)
    ensures !ModeKnown(mode) ==> r == Err(BadMode(mode))
    ensures mode == PERMIT && entries == [] ==> r == Err(PermitsNothing)
    ensures r.Err? && ModeKnown(mode) && !(mode == PERMIT && entries == []) ==>
              exists i :: 0 <= i < |entries| && EntriesParse(kind, entries[..i]) && ParseEntry(kind, entries[i]) == Err(r.error)
  {
    if mode != "" && mode != DENY && mode != PERMIT {
      return Err(BadMode(mode));
    }
    if mode == PERMIT && |entries| == 0 {
      return Err(PermitsNothing);
    }
    var spans: seq<Span> := [];
    for i := 0 to |entries|
      invariant |spans| == i
      invariant forall k :: 0 <= k < i ==> ParseEntry(kind, entries[k]) == Ok(spans[k])
    {
      var s := ParseEntry(kind, entries[i]);
      if s.Err? {
        return Err(s.error);
      }
      spans := spans + [s.value];
    }
    EntriesDenoteSpans(kind, entries, spans);
    var merged := MergeSpans(spans);
    r := Ok(List(EffectiveMode(mode), merged));
  }

  /** merge on the slice the entries were appended to. */
  method MergeSpans(spans: seq<Span>) returns (merged: seq<Span>)
    requires Forward(spans)
    ensures Canonical(merged) && forall id: int :: Names(merged, id) <==> Names(spans, id)
  {
    var a := new Span[|spans|](i requires 0 <= i < |spans| => spans[i]);
    assert a[..] == spans;
    var n := Merge(a);
    merged := a[..n];
  }

  lemma EntriesDenoteSpans(kind: Kind, entries: seq<string>, spans: seq<Span>)
    requires |entries| == |spans|
    requires forall k :: 0 <= k < |entries| ==> ParseEntry(kind, entries[k]) == Ok(spans[k])
    ensures Forward(spans)
    ensures forall id: int :: Names(spans, id) <==> Denotes(kind, entries, id)
  {
  }

  /** What parsing decides depends only on the mode and the IDs covered. */
  lemma ParsedListsAgree(kind: Kind, mode: string, e: seq<string>, f: seq<string>, l: List, m: List)
    requires IsParsed(kind, mode, e, l) && IsParsed(kind, mode, f, m)
    requires forall id: int :: Denotes(kind, e, id) <==> Denotes(kind, f, id)
    ensures l == m
  {
    CanonicalIsUnique(l.spans, m.spans);
  }

  /** What was written decides every ID: a permit list lets through what its entries cover, a deny list the rest. */
  lemma ParsedListDecides(kind: Kind, mode: string, entries: seq<string>, l: List, id: Word)
    requires IsParsed(kind, mode, entries, l)
    ensures mode == "permit" || mode == "deny" || mode == ""
    ensures Allowed(l, id) <==> if mode == "permit" then Denotes(kind, entries, id) else !Denotes(kind, entries, id)
  {
  }

  // ---- what is wrong with an entry

  /** One number: missing, not a numeral, more than the field carries, or zero. */
  lemma NumberErrors(kind: Kind, num: string, entry: string)
    ensures var most := if kind == Registration then 0xFFFF_FFFF else 0xFF_FFFF;
            && (ParseID(kind, num, entry) == Err(MissingNumber(entry)) <==> num == "")
            && (ParseID(kind, num, entry) == Err(NotANumber(entry)) <==> exists i :: 0 <= i < |num| && !('0' <= num[i] <= '9'))
            && (ParseID(kind, num, entry) == Err(TooLarge(num, most)) <==> num != "" && AllDigits(num) && ValueOf(num) > most)
            && (ParseID(kind, num, entry) == Err(ZeroStation) <==> num != "" && AllDigits(num) && ValueOf(num) == 0)
            && (ParseID(kind, num, entry).Ok? <==> num != "" && AllDigits(num) && 1 <= ValueOf(num) <= most)
  {
  }

  lemma EmptyIsAllSpace(kind: Kind, raw: string)
    ensures ParseEntry(kind, raw) == Err(EmptyEntry) <==> AllSpace(raw)
  {
    TrimmedToNothing(raw);
    NeverCalledEmpty(kind, TrimSpace(raw));
  }

  lemma TrimmedToNothing(raw: string)
    ensures TrimSpace(raw) == "" <==> AllSpace(raw)
  {
    if AllSpace(raw) {
      TrimLeftOfSpace(raw);
    }
    var pre, post := TrimParts(raw);
    if TrimSpace(raw) == "" {
      assert raw == pre + post;
    }
  }

  lemma NeverCalledEmpty(kind: Kind, entry: string)
    ensures ParseTrimmed(kind, entry) != Err(EmptyEntry)
  {
  }

  lemma {:induction false} TrimLeftOfSpace(s: string)
    requires AllSpace(s)
    ensures TrimLeft(s) == ""
  {
    if s != [] {
      TrimLeftOfSpace(s[1..]);
    }
  }

  /** A range says first what is wrong with its low end, then with its high end, then that it runs backwards. */
  lemma RangeErrors(kind: Kind, a: string, b: string)
    requires '-' !in a
    ensures var entry := a + "-" + b;
            var low, high := ParseID(kind, a, entry), ParseID(kind, b, entry);
            ParseTrimmed(kind, entry)
            == if low.Err? then Err(low.error)
               else if high.Err? then Err(high.error)
               else if high.value < low.value then Err(Backwards(entry, high.value, low.value))
               else Ok(Span(low.value, high.value))
  {
    var entry := a + "-" + b;
    assert entry[|a|] == '-' && forall k :: 0 <= k < |a| ==> entry[k] == a[k];
    assert Hyphen(entry) == |a|;
    assert entry[..|a|] == a && entry[|a| + 1..] == b;
  }

  /** Without a hyphen the whole entry is the number. */
  lemma SingleErrors(kind: Kind, entry: string)
    requires '-' !in entry
    ensures ParseTrimmed(kind, entry).Ok? <==> ParseID(kind, entry, entry).Ok?
    ensures ParseTrimmed(kind, entry).Err? ==> ParseTrimmed(kind, entry).error == ParseID(kind, entry, entry).error
  {
    assert Hyphen(entry) == |entry|;
  }

  // ---- lookups

  /** sort.Search for the first span that ends at or after the ID. */
  method NamesID(spans: seq<Span>, id: Word) returns (named: bool)
    requires Canonical(spans)
    ensures named <==> Names(spans, id)
  {
    var i, j := 0, |spans|;
    while i < j
      invariant 0 <= i <= j <= |spans|
      invariant forall k :: 0 <= k < i ==> spans[k].hi < id
      invariant forall k :: j <= k < |spans| ==> id <= spans[k].hi
    {
      var h := (i + j) / 2;
      if spans[h].hi >= id {
        j := h;
      } else {
        i := h + 1;
      }
    }
    named := i < |spans| && spans[i].lo <= id;
  }

  predicate Allowed(l: List, id: Word) {
    if l.mode == PERMIT then Names(l.spans, id) else !Names(l.spans, id)
  }

  method Allows(l: List, id: Word) returns (ok: bool)
    requires Canonical(l.spans)
    ensures ok <==> Allowed(l, id)
  {
    var named := NamesID(l.spans, id);
    ok := if l.mode == PERMIT then named else !named;
  }

  predicate Permissive(l: List) {
    l.mode != PERMIT && l.spans == []
  }

  lemma StationZeroIsNeverNamed(kind: Kind, mode: string, entries: seq<string>, l: List)
    requires IsParsed(kind, mode, entries, l)
    ensures !Names(l.spans, 0)
  {
    forall i | 0 <= i < |entries|
      ensures !InSpan(ParseEntry(kind, entries[i]).value, 0)
    {
      EntryGrammar(kind, entries[i], ParseEntry(kind, entries[i]).value);
    }
  }

  /** The flag the startup check reads is exactly what it claims, for every ID there can be. */
  lemma PermissiveMeansEveryID(kind: Kind, mode: string, entries: seq<string>, l: List)
    requires l == ZERO_LIST || IsParsed(kind, mode, entries, l)
    ensures Permissive(l) <==> forall id: Word :: Allowed(l, id)
  {
    if l != ZERO_LIST {
      StationZeroIsNeverNamed(kind, mode, entries, l);
      if l.mode == PERMIT {
        assert !Allowed(l, 0);
      } else if l.spans != [] {
        assert InSpan(l.spans[0], l.spans[0].lo);
        assert !Allowed(l, l.spans[0].lo);
      }
    }
  }

  // ---- printing

  function ModeOf(l: List): string {
    if l.mode == "" then DENY else l.mode
  }

  function Entry(s: Span): string {
    if s.lo == s.hi then Format(s.lo) else Format(s.lo) + "-" + Format(s.hi)
  }

  function EntriesOf(spans: seq<Span>): seq<string> {
    seq(|spans|, i requires 0 <= i < |spans| => Entry(spans[i]))
  }

  method Entries(l: List) returns (out: seq<string>)
    ensures out == EntriesOf(l.spans)
  {
    out := [];
    for i := 0 to |l.spans|
      invariant out == EntriesOf(l.spans[..i])
    {
      var s := l.spans[i];
      if s.lo == s.hi {
        out := out + [Format(s.lo)];
      } else {
        out := out + [Format(s.lo) + "-" + Format(s.hi)];
      }
    }
    assert l.spans[..|l.spans|] == l.spans;
  }

  /** A single ID is printed alone, and a range with a hyphen. */
  lemma EntryText(s: Span)
    ensures '-' in Entry(s) <==> s.lo != s.hi
    ensures s.lo == s.hi ==> Entry(s) == Format(s.lo)
  {
    if s.lo != s.hi {
      assert Entry(s)[|Format(s.lo)|] == '-';
    }
  }

  /** What is printed for a span is an entry for that span. */
  lemma EntryReadsBack(kind: Kind, s: Span)
    requires 1 <= s.lo <= s.hi <= Ceiling(kind)
    ensures ParseEntry(kind, Entry(s)) == Ok(s)
  {
    FormatReadsBack(s.lo);
    FormatReadsBack(s.hi);
    var a, b := Format(s.lo), Format(s.hi);
    if s.lo == s.hi {
      assert a == "" + a + "";
    } else {
      assert a + "-" + b == "" + (a + "-" + b) + "";
    }
    assert SpelledBy(kind, Entry(s), s, "", a, b, "");
    SpelledEntryIsParsed(kind, Entry(s), s);
  }

  lemma ParsedSpansFit(kind: Kind, mode: string, entries: seq<string>, l: List, i: nat)
    requires IsParsed(kind, mode, entries, l) && i < |l.spans|
    ensures 1 <= l.spans[i].lo <= l.spans[i].hi <= Ceiling(kind)
  {
    StationZeroIsNeverNamed(kind, mode, entries, l);
    var s := l.spans[i];
    assert InSpan(s, s.lo) && InSpan(s, s.hi);
    assert Names(l.spans, s.hi);
    var k :| 0 <= k < |entries| && ParseEntry(kind, entries[k]).Ok? && InSpan(ParseEntry(kind, entries[k]).value, s.hi);
    EntryGrammar(kind, entries[k], ParseEntry(kind, entries[k]).value);
  }

  /** What a loaded list prints parses to that list, whatever was written to begin with. */
  lemma EntriesRoundTrip(kind: Kind, mode: string, entries: seq<string>, l: List)
    requires IsParsed(kind, mode, entries, l)
    ensures IsParsed(kind, ModeOf(l), EntriesOf(l.spans), l)
    ensures forall m :: IsParsed(kind, ModeOf(l), EntriesOf(l.spans), m) ==> m == l
  {
    var printed := EntriesOf(l.spans);
    forall i | 0 <= i < |printed|
      ensures ParseEntry(kind, printed[i]) == Ok(l.spans[i])
    {
      ParsedSpansFit(kind, mode, entries, l, i);
      EntryReadsBack(kind, l.spans[i]);
    }
    EntriesDenoteSpans(kind, printed, l.spans);
    if mode == PERMIT {
      ParsedPermitIsNotEmpty(kind, entries, l);
    }
    forall m | IsParsed(kind, ModeOf(l), printed, m)
      ensures m == l
    {
      CanonicalIsUnique(m.spans, l.spans);
    }
  }

  lemma ParsedPermitIsNotEmpty(kind: Kind, entries: seq<string>, l: List)
    requires IsParsed(kind, PERMIT, entries, l)
    ensures l.spans != []
  {
    var s := ParseEntry(kind, entries[0]).value;
    EntryGrammar(kind, entries[0], s);
    assert InSpan(s, s.lo);
    assert Denotes(kind, entries, s.lo);
    assert Names(l.spans, s.lo);
  }

  /** The zero list prints as an empty deny list, which allows what it allowed. */
  lemma ZeroListPrintsAsDeny(kind: Kind)
    ensures IsParsed(kind, ModeOf(ZERO_LIST), EntriesOf(ZERO_LIST.spans), List(DENY, []))
    ensures forall id: Word :: Allowed(ZERO_LIST, id) == Allowed(List(DENY, []), id)
  {
  }
}
