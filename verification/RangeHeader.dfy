/** The `Range` request header, single range. */
module RangeHeader {
  import opened Prelude
  import opened Decimal
  import opened Unicode

  type Text = seq<scalar>

  /** The Unicode white space that trimming removes. */
  predicate IsSpace(c: scalar)
  {
    9 <= c <= 13 || c == 32 || c == 0x85 || c == 0xA0 || c == 0x1680 || 0x2000 <= c <= 0x200A ||
    c == 0x2028 || c == 0x2029 || c == 0x202F || c == 0x205F || c == 0x3000
  }

  function TrimStart(s: Text): (r: Text)
  {
    if s != [] && IsSpace(s[0]) then TrimStart(s[1..]) else s
  }

  function TrimEnd(s: Text): (r: Text)
  {
    if s != [] && IsSpace(s[|s| - 1]) then TrimEnd(s[..|s| - 1]) else s
  }

  function Trim(s: Text): (r: Text) { TrimEnd(TrimStart(s)) }

  /** What stands before the first `c`, if there is one, and what stands behind it. */
  function Cut(s: Text, c: scalar): (r: Option<(Text, Text)>)
  {
    if s == [] then None
    else if s[0] == c then Some(([], s[1..]))
    else
      match Cut(s[1..], c)
      case None => None
      case Some((a, b)) => Some(([s[0]] + a, b))
  }

  const BYTES: Text := [98, 121, 116, 101, 115, 61]
  const COMMA: scalar := 44
  const DASH: scalar := 45

  predicate StartsWithBytes(s: Text) { |s| >= 6 && s[..6] == BYTES }

  /** An inclusive range. */
  datatype Range = Range(start: nat, end: nat)

  /** The two ends of the first range of a header, as texts. */
  function Ends(header: Text): (r: Option<(Text, Text)>)
  {
    var h := Trim(header);
    if !StartsWithBytes(h) then None
    else
      var list := Trim(h[6..]);
      var comma := Cut(list, COMMA);
      match Cut(Trim(if comma.Some? then comma.value.0 else list), DASH)
      case None => None
      case Some((x, y)) => Some((Trim(x), Trim(y)))
  }

  /** The first range of the header, within a resource of `total` bytes. */
  function ParseRange(header: Text, total: nat): (r: Option<Range>)
    ensures r.Some? ==> r.value.start <= r.value.end < total
  {
    match Ends(header)
    case None => None
    case Some((a, b)) =>
      if a == [] then
        match ParseUnsigned(b, U64_MAX)
        case None => None
        case Some(n) =>
          if n == 0 || total == 0 then None
          else Some(Range(if n <= total then total - n else 0, total - 1))
      else
        match ParseUnsigned(a, U64_MAX)
        case None => None
        case Some(start) =>
          if start >= total then None
          else
            var last := if b == [] then Some(U64_MAX) else ParseUnsigned(b, U64_MAX);
            if last.None? then None
            else
              var end := if b == [] then total - 1 else Min(last.value, total - 1);
              if end < start then None else Some(Range(start, end))
  }

  // ---- the three forms of section 14.1.2 of RFC 9110 ----

  function Numeral10(n: nat): (s: Text) { DigitsRead(n); AsText(Digits(n)) }

  function AsText(s: seq<byte>): (r: Text) { s }

  /** A text without white space at its ends. */
  predicate Tight(s: Text)
  {
    s == [] || (!IsSpace(s[0]) && !IsSpace(s[|s| - 1]))
  }

  lemma TightTrim(s: Text)
    requires Tight(s)
    ensures Trim(s) == s
  {
  }

  lemma {:induction false} CutAt(a: Text, c: scalar, b: Text)
    requires c !in a
    ensures Cut(a + [c] + b, c) == Some((a, b))
  {
    var s := a + [c] + b;
    if a == [] {
      assert s[1..] == b;
    } else {
      assert s[1..] == a[1..] + [c] + b;
      CutAt(a[1..], c, b);
      assert [a[0]] + a[1..] == a;
    }
  }

  lemma {:induction false} NoCut(s: Text, c: scalar)
    requires c !in s
    ensures Cut(s, c) == None
  {
    if s != [] {
      NoCut(s[1..], c);
    }
  }

  lemma NumeralTight(n: nat)
    ensures Numeral10(n) != [] && Tight(Numeral10(n)) && COMMA !in Numeral10(n) && DASH !in Numeral10(n)
    ensures n <= U64_MAX ==> ParseUnsigned(Numeral10(n), U64_MAX) == Some(n)
  {
    DigitsRead(n);
    var s := Numeral10(n);
    assert forall i :: 0 <= i < |s| ==> IsDigit(s[i]);
    assert IsDigit(s[0]);
  }

  /** A header `bytes=` followed by `spec`, which holds no white space and no comma. */
  lemma HeaderSpec(a: Text, b: Text, total: nat)
    requires Tight(a) && Tight(b) && COMMA !in a && COMMA !in b && DASH !in a
    ensures var h := BYTES + (a + [DASH] + b);
            && Trim(h) == h && StartsWithBytes(h) && Trim(h[6..]) == a + [DASH] + b
            && Cut(a + [DASH] + b, COMMA) == None && Trim(a + [DASH] + b) == a + [DASH] + b
            && Cut(a + [DASH] + b, DASH) == Some((a, b)) && Trim(a) == a && Trim(b) == b
  {
    var spec := a + [DASH] + b;
    var h := BYTES + spec;
    assert h[..6] == BYTES && h[6..] == spec;
    assert h[0] == 98;
    assert Tight(spec);
    TightTrim(h);
    TightTrim(spec);
    NoCut(spec, COMMA);
    CutAt(a, DASH, b);
    TightTrim(a);
    TightTrim(b);
  }

  /** `bytes=a-b` asks for bytes `a` to `b`, clipped to the end. */
  lemma FirstLast(a: nat, b: nat, total: nat)
    requires a <= U64_MAX && b <= U64_MAX
    ensures ParseRange(BYTES + (Numeral10(a) + [DASH] + Numeral10(b)), total) ==
            if a < total && a <= b then Some(Range(a, Min(b, total - 1))) else None
  {
    hide Trim, Cut, StartsWithBytes, Numeral10, ParseUnsigned, Tight;
    NumeralTight(a);
    NumeralTight(b);
    HeaderSpec(Numeral10(a), Numeral10(b), total);
  }

  /** `bytes=a-` asks for everything from `a` on. */
  lemma FirstOnly(a: nat, total: nat)
    requires a <= U64_MAX
    ensures ParseRange(BYTES + (Numeral10(a) + [DASH] + []), total) ==
            if a < total then Some(Range(a, total - 1)) else None
  {
    hide Trim, Cut, StartsWithBytes, Numeral10, ParseUnsigned;
    NumeralTight(a);
    HeaderSpec(Numeral10(a), [], total);
  }

  /** `bytes=-n` asks for the last `n` bytes. */
  lemma SuffixOnly(n: nat, total: nat)
    requires n <= U64_MAX
    ensures ParseRange(BYTES + ([] + [DASH] + Numeral10(n)), total) ==
            if n == 0 || total == 0 then None else Some(Range(Max(total - n, 0), total - 1))
  {
    hide Trim, Cut, StartsWithBytes, Numeral10, ParseUnsigned;
    NumeralTight(n);
    HeaderSpec([], Numeral10(n), total);
  }

  // ---- every header ----

  /** What `parse` reads as an unsigned number: digits, at least one, behind a plus sign or not, of a value in range. */
  lemma UnsignedIff(s: Text, max: nat, n: nat)
    ensures ParseUnsigned(s, max) == Some(n) <==> exists t: seq<int> :: IsNumber(s, t, n, max)
  {
    if ParseUnsigned(s, max) == Some(n) {
      var t: seq<int> := if s != [] && s[0] == 43 then s[1..] else s;
      assert IsNumber(s, t, n, max);
    }
    forall t: seq<int> | IsNumber(s, t, n, max)
      ensures ParseUnsigned(s, max) == Some(n)
    {
      assert IsDigit(t[0]);
      if s == [43] + t {
        assert s[1..] == t;
      }
    }
  }

  ghost predicate IsNumber(s: seq<int>, digits: seq<int>, n: nat, max: nat)
  {
    n <= max && digits != [] && AllDigits(digits) && Number(digits) == n && (s == digits || s == [43] + digits)
  }

  /**
   * What the two ends of a range ask for, numbers or not: anything but a number where one must be, and a range that holds
   * no byte of the resource, is refused.
   */
  lemma EndsMean(header: Text, a: Text, b: Text, total: nat)
    ensures Ends(header).None? ==> ParseRange(header, total) == None
    ensures Ends(header) == Some((a, b)) ==>
              var first, last := ParseUnsigned(a, U64_MAX), ParseUnsigned(b, U64_MAX);
              ParseRange(header, total) ==
                if a == [] then
                  if last.Some? && last.value > 0 && total > 0 then Some(Range(Max(total - last.value, 0), total - 1)) else None
                else if first.None? || first.value >= total || (b != [] && (last.None? || last.value < first.value)) then None
                else Some(Range(first.value, if b == [] then total - 1 else Min(last.value, total - 1)))
  {
    hide Ends, ParseUnsigned;
  }

  predicate AllSpace(w: Text) { forall i :: 0 <= i < |w| ==> IsSpace(w[i]) }

  lemma {:induction false} TrimStartSkips(w: Text, s: Text)
    requires AllSpace(w)
    ensures TrimStart(w + s) == TrimStart(s)
  {
    if w == [] {
      assert w + s == s;
    } else {
      assert (w + s)[1..] == w[1..] + s;
      TrimStartSkips(w[1..], s);
    }
  }

  lemma {:induction false} TrimEndSkips(s: Text, w: Text)
    requires AllSpace(w)
    ensures TrimEnd(s + w) == TrimEnd(s)
  {
    if w == [] {
      assert s + w == s;
    } else {
      assert (s + w)[..|s + w| - 1] == s + w[..|w| - 1];
      TrimEndSkips(s, w[..|w| - 1]);
    }
  }

  /** White space around a text is trimmed off, and nothing else. */
  lemma TrimPadded(v: Text, s: Text, w: Text)
    requires AllSpace(v) && AllSpace(w) && Tight(s)
    ensures Trim(v + s + w) == s
  {
    hide AllSpace;
    assert v + s + w == v + (s + w);
    TrimStartSkips(v, s + w);
    if s == [] {
      assert s + w == w && w + [] == w;
      TrimStartSkips(w, []);
    } else {
      assert (s + w)[0] == s[0];
      TrimEndSkips(s, w);
    }
  }

  /** The first range of a list. */
  lemma FirstPart(s: Text, more: Text)
    requires COMMA !in s && (more == [] || more[0] == COMMA)
    ensures var comma := Cut(s + more, COMMA); (if comma.Some? then comma.value.0 else s + more) == s
  {
    if more == [] {
      assert s + more == s;
      NoCut(s, COMMA);
    } else {
      assert s + more == s + [COMMA] + more[1..];
      CutAt(s, COMMA, more[1..]);
    }
  }

  lemma SpacesHold(w: Text)
    requires AllSpace(w)
    ensures COMMA !in w && DASH !in w
  {
  }

  lemma RangeTight(a: Text, u: Text, u': Text, b: Text)
    requires Tight(a) && Tight(b) && (a == [] ==> u == []) && (b == [] ==> u' == [])
    ensures Tight(a + u + [DASH] + u' + b)
  {
  }

  lemma EndsOfRange(a: Text, u: Text, u': Text, b: Text)
    requires Tight(a) && Tight(b) && DASH !in a && AllSpace(u) && AllSpace(u')
    ensures var cut := Cut(a + u + [DASH] + u' + b, DASH);
            cut.Some? && Trim(cut.value.0) == a && Trim(cut.value.1) == b
  {
    hide Trim, Cut;
    SpacesHold(u);
    assert a + u + [DASH] + u' + b == (a + u) + [DASH] + (u' + b);
    CutAt(a + u, DASH, u' + b);
    assert [] + a + u == a + u && u' + b + [] == u' + b;
    TrimPadded([], a, u);
    TrimPadded(u', b, []);
  }

  /** A list whose first range is `spec`, with more ranges behind it or none. */
  lemma EndsOfList(spec: Text, w: Text, more: Text)
    requires Tight(spec) && spec != [] && COMMA !in spec && AllSpace(w) && (more == [] || more[0] == COMMA)
    ensures var list := spec + w + more;
            var comma := Cut(list, COMMA);
            Trim(if comma.Some? then comma.value.0 else list) == spec
  {
    hide Trim, Cut;
    SpacesHold(w);
    FirstPart(spec + w, more);
    assert [] + spec + w == spec + w;
    TrimPadded([], spec, w);
  }

  /**
   * White space around the header, the list, the first range and its two ends makes no difference, and neither does what
   * comes behind the first comma. White space is counted here with the nearest text that is not empty.
   */
  lemma PaddingIgnored(v: Text, v1: Text, a: Text, u: Text, u': Text, b: Text, w: Text, more: Text, v': Text)
    requires AllSpace(v) && AllSpace(v1) && AllSpace(u) && AllSpace(u') && AllSpace(w) && AllSpace(v')
    requires Tight(a) && Tight(b) && COMMA !in a && COMMA !in b && DASH !in a
    requires (a == [] ==> u == []) && (b == [] ==> u' == []) && (more == [] ==> w == [])
    requires Tight(more) && (more == [] || more[0] == COMMA)
    ensures var spec := a + u + [DASH] + u' + b;
            Ends(v + (BYTES + (v1 + (spec + w + more))) + v') == Some((a, b))
  {
    hide Trim, Cut, Tight, AllSpace;
    var spec := a + u + [DASH] + u' + b;
    var list := spec + w + more;
    RangeTight(a, u, u', b);
    SpacesHold(u);
    SpacesHold(u');
    assert COMMA !in spec && spec != [];
    ListTight(spec, w, more);
    HeaderTight(v1, list);
    var h := BYTES + (v1 + list);
    TrimPadded(v, h, v');
    assert h[..6] == BYTES && h[6..] == v1 + list;
    assert v1 + list + [] == v1 + list;
    assert AllSpace([]) by { NoSpaces(); }
    TrimPadded(v1, list, []);
    EndsOfList(spec, w, more);
    EndsOfRange(a, u, u', b);
  }

  lemma NoSpaces()
    ensures AllSpace([])
  {
  }

  lemma ListTight(spec: Text, w: Text, more: Text)
    requires Tight(spec) && spec != [] && Tight(more) && (more == [] ==> w == [])
    ensures Tight(spec + w + more)
  {
  }

  lemma HeaderTight(v1: Text, list: Text)
    requires Tight(list) && list != []
    ensures Tight(BYTES + (v1 + list))
  {
    assert (BYTES + (v1 + list))[0] == 98;
  }

  // ---- and no other ----

  lemma {:induction false} TrimStartSplit(s: Text) returns (v: Text)
    ensures AllSpace(v) && s == v + TrimStart(s)
    ensures TrimStart(s) != [] ==> !IsSpace(TrimStart(s)[0])
  {
    v := [];
    if s != [] && IsSpace(s[0]) {
      v := TrimStartSplit(s[1..]);
      v := [s[0]] + v;
    }
  }

  lemma {:induction false} TrimEndSplit(s: Text) returns (w: Text)
    ensures AllSpace(w) && s == TrimEnd(s) + w
    ensures TrimEnd(s) != [] ==> !IsSpace(TrimEnd(s)[|TrimEnd(s)| - 1]) && TrimEnd(s)[0] == s[0]
    decreases |s|
  {
    w := [];
    if s != [] && IsSpace(s[|s| - 1]) {
      w := TrimEndSplit(s[..|s| - 1]);
      w := w + [s[|s| - 1]];
    }
  }

  /** A text is what trimming leaves of it between white space. */
  lemma TrimSplit(s: Text) returns (v: Text, w: Text)
    ensures AllSpace(v) && AllSpace(w) && s == v + Trim(s) + w && Tight(Trim(s))
  {
    v := TrimStartSplit(s);
    w := TrimEndSplit(TrimStart(s));
  }

  lemma {:induction false} CutSplit(s: Text, c: scalar)
    ensures Cut(s, c).Some? ==> c !in Cut(s, c).value.0 && s == Cut(s, c).value.0 + [c] + Cut(s, c).value.1
    ensures Cut(s, c).None? ==> c !in s
  {
    if s != [] && s[0] != c {
      CutSplit(s[1..], c);
    }
  }

  /** The parts of a header in the order they stand in it. */
  datatype Parts = Parts(before: Text, list: Text, after: Text, spec: Text, more: Text)

  /** `header` is white space, `bytes=`, white space, a list and white space; the list is its first range and more. */
  ghost predicate HasParts(header: Text, p: Parts, v1: Text, w1: Text, v2: Text, w2: Text)
  {
    && AllSpace(p.before) && AllSpace(p.after) && AllSpace(v1) && AllSpace(w1) && AllSpace(v2) && AllSpace(w2)
    && header == p.before + (BYTES + (v1 + p.list + w1)) + p.after
    && p.list == v2 + p.spec + w2 + p.more && COMMA !in p.spec && (p.more == [] || p.more[0] == COMMA)
  }

  /** A header gives a range only if it has the form. */
  lemma EndsForm(header: Text) returns (p: Parts, v1: Text, w1: Text, v2: Text, w2: Text, v3: Text, w3: Text, v4: Text, w4: Text)
    requires Ends(header).Some?
    ensures HasParts(header, p, v1, w1, v2, w2)
    ensures var (a, b) := Ends(header).value;
            && AllSpace(v3) && AllSpace(w3) && AllSpace(v4) && AllSpace(w4) && Tight(a) && Tight(b)
            && p.spec == v3 + a + w3 + [DASH] + (v4 + b + w4) && DASH !in v3 + a + w3
  {
    hide Trim, Cut, AllSpace, Tight, StartsWithBytes;
    var before, after := TrimSplit(header);
    var h := Trim(header);
    assert h == BYTES + h[6..] by { StartsIs(h); }
    v1, w1 := TrimSplit(h[6..]);
    var list := Trim(h[6..]);
    CutSplit(list, COMMA);
    var comma := Cut(list, COMMA);
    var part := if comma.Some? then comma.value.0 else list;
    var more := if comma.Some? then [COMMA] + comma.value.1 else [];
    v2, w2 := TrimSplit(part);
    var spec := Trim(part);
    CutSplit(spec, DASH);
    var x, y := Cut(spec, DASH).value.0, Cut(spec, DASH).value.1;
    v3, w3 := TrimSplit(x);
    v4, w4 := TrimSplit(y);
    p := Parts(before, list, after, spec, more);
    assert list == part + more;
    NoComma(part, v2, spec, w2);
  }

  lemma StartsIs(h: Text)
    requires StartsWithBytes(h)
    ensures |h| >= 6 && h == BYTES + h[6..]
  {
  }

  lemma NoComma(part: Text, v: Text, spec: Text, w: Text)
    requires COMMA !in part && part == v + spec + w
    ensures COMMA !in spec
  {
  }
}
