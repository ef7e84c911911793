/** Descriptor text written the way the grammar lays it out, and the proof
    that readOneDescriptor and the descriptor loop read such text back. */
module DescriptorText {
  import opened Base
  import opened JavaStrings
  import opened ABITypes
  import opened Descriptors

  /** The characters the payload format reserves for its structure. */
  predicate IsMarker(c: char) {
    c == '[' || c == ']' || c == '(' || c == ')' || c == '<' || c == '>'
  }

  /** One argument shape with the character naming its elementary type. */
  datatype Token = Token(code: char, shape: Shape)

  /** A size the runtime can hold in an int and write in decimal. */
  predicate SizeOk(n: int) {
    0 <= n <= INT_MAX
  }

  predicate SizesOk(rows: seq<int>) {
    forall i :: 0 <= i < |rows| ==> SizeOk(rows[i])
  }

  predicate WellFormed(t: Token) {
    && !IsMarker(t.code)
    && match t.shape
       case Scalar => true
       case Array1D(n) => SizeOk(n)
       case Array2D(rows) => SizeOk(|rows|) && SizesOk(rows)
  }

  predicate AllWellFormed(ts: seq<Token>) {
    forall i :: 0 <= i < |ts| ==> WellFormed(ts[i])
  }

  /** A 2-D shape written as [[Tm]n]: at least one row, all of one non-zero
      length. */
  predicate IsRectangular(rows: seq<int>) {
    |rows| > 0 && rows[0] > 0 && forall i :: 0 <= i < |rows| ==> rows[i] == rows[0]
  }

  /** The row-length groups "(k1)...(kn)" of a jagged shape. */
  function RowGroups(rows: seq<int>): string
    requires SizesOk(rows)
  {
    if rows == [] then ""
    else RowGroups(rows[..|rows| - 1]) + "(" + Decimal(rows[|rows| - 1]) + ")"
  }

  function Rectangular(code: char, m: nat, n: nat): string {
    "[[" + [code] + Decimal(m) + "]" + Decimal(n) + "]"
  }

  function Jagged(code: char, rows: seq<int>): string
    requires SizesOk(rows)
  {
    "[[" + [code] + "]" + Decimal(|rows|) + "]" + RowGroups(rows)
  }

  /** The descriptor text of one shape. An empty 2-D shape is written in the
      rectangular form, since a jagged one needs at least one row. */
  function Render(t: Token): (text: string)
    requires WellFormed(t)
    ensures |text| >= 1 && (text[0] == '[' || text[0] == t.code)
  {
    match t.shape
    case Scalar => [t.code]
    case Array1D(n) => "[" + [t.code] + Decimal(n) + "]"
    case Array2D(rows) =>
      if |rows| == 0 then Rectangular(t.code, 1, 0)
      else if IsRectangular(rows) then Rectangular(t.code, rows[0], |rows|)
      else Jagged(t.code, rows)
  }

  /** The descriptor string of a whole call: the shapes with no separator. */
  function RenderAll(ts: seq<Token>): (text: string)
    requires AllWellFormed(ts)
    ensures |ts| > 0 ==> |text| > 0 && text[0] != '('
  {
    if ts == [] then "" else Render(ts[0]) + RenderAll(ts[1..])
  }

  /** The descriptor readOneDescriptor is expected to produce for a token. */
  function DescriptorOf(reg: Registry, t: Token): Descriptor
    requires WellFormed(t)
  {
    Descriptor(reg.mapTag(t.code), t.shape, |Render(t)|)
  }

  function DescriptorsOf(reg: Registry, ts: seq<Token>): (ds: seq<Descriptor>)
    requires AllWellFormed(ts)
    ensures |ds| == |ts|
    ensures forall i :: 0 <= i < |ts| ==> ds[i] == DescriptorOf(reg, ts[i])
  {
    if ts == [] then [] else [DescriptorOf(reg, ts[0])] + DescriptorsOf(reg, ts[1..])
  }

  // ---- where pieces of text sit

  /** `t` occurs in `s` at position `p`. */
  predicate TextAt(s: string, p: nat, t: string) {
    p + |t| <= |s| && s[p..p + |t|] == t
  }

  /** The decimal notation of `n` occurs at `q`, closed by `stop`. */
  predicate NumberAt(s: string, q: nat, n: nat, stop: char) {
    TextAt(s, q, Decimal(n)) && q + |Decimal(n)| < |s| && s[q + |Decimal(n)|] == stop
  }

  /** The row groups of `rows` occur where RowGroups puts them when it is
      written right after the ']' at `base`: each number starts two
      characters past the character closing the one before. */
  predicate GroupsAt(s: string, base: nat, rows: seq<int>)
    requires SizesOk(rows)
  {
    rows == [] ||
      (GroupsAt(s, base, rows[..|rows| - 1])
       && NumberAt(s, base + |RowGroups(rows[..|rows| - 1])| + 2, rows[|rows| - 1], ')'))
  }

  lemma NumberAtText(s: string, pre: string, q: nat, n: nat, stop: char, rest: string)
    requires s == pre + Decimal(n) + [stop] + rest && q == |pre|
    ensures NumberAt(s, q, n, stop)
  {
    assert s[q..q + |Decimal(n)|] == Decimal(n);
  }

  /** Regrouping a text around one "(x)" group. */
  lemma RegroupGroup(s: string, a: string, b: string, x: string, d: string)
    requires s == a + (b + "(" + x + ")") + d
    ensures s == a + b + ("(" + x + ")" + d)
    ensures s == (a + b + "(") + x + [')'] + d
  {
  }

  /** Regrouping a text around the number after a prefix. */
  lemma RegroupNumber(s: string, a: string, x: string, b: string, d: string)
    requires s == a + x + "]" + b + d
    ensures s == a + x + [']'] + (b + d)
  {
  }

  lemma RowGroupsLength(rows: seq<int>)
    requires SizesOk(rows) && rows != []
    ensures |RowGroups(rows)| == |RowGroups(rows[..|rows| - 1])| + 2 + |Decimal(rows[|rows| - 1])|
  {
  }

  lemma {:induction false} GroupsAtText(s: string, pre: string, base: nat, rows: seq<int>, rest: string)
    requires SizesOk(rows)
    requires s == pre + RowGroups(rows) + rest && base + 1 == |pre|
    ensures GroupsAt(s, base, rows)
    decreases |rows|
  {
    if rows != [] {
      var init, last := rows[..|rows| - 1], rows[|rows| - 1];
      var g := RowGroups(init);
      RegroupGroup(s, pre, g, Decimal(last), rest);
      GroupsAtText(s, pre, base, init, "(" + Decimal(last) + ")" + rest);
      NumberAtText(s, pre + g + "(", base + |g| + 2, last, ')', rest);
    }
  }

  /** A text that begins with `x` is `x` followed by the rest. */
  lemma SplitAt(s: string, x: string)
    requires TextAt(s, 0, x)
    ensures s == x + s[|x|..]
  {
    assert s[..|x|] == x;
  }

  /** Where the pieces of a one-dimensional shape "[Tn]" sit in `s`. */
  predicate OneDTextAt(s: string, c: char, n: nat) {
    NumberAt(s, 2, n, ']') && StartsWith(s, "[") && !StartsWith(s, "[[") && s[1] == c
  }

  lemma Text1D(c: char, n: nat, rest: string)
    requires !IsMarker(c)
    ensures OneDTextAt("[" + [c] + Decimal(n) + "]" + rest, c, n)
  {
    var s := "[" + [c] + Decimal(n) + "]" + rest;
    assert s[..1] == "[" && s[1] == c;
    assert s[..2] != "[[" by {
      assert s[..2][1] == c;
    }
    NumberAtText(s, "[" + [c], 2, n, ']', rest);
  }

  lemma Text1DAt(s: string, c: char, n: nat)
    requires !IsMarker(c) && TextAt(s, 0, "[" + [c] + Decimal(n) + "]")
    ensures OneDTextAt(s, c, n)
  {
    var x := "[" + [c] + Decimal(n) + "]";
    SplitAt(s, x);
    Text1D(c, n, s[|x|..]);
  }

  /** Where the pieces of a rectangular shape "[[Tm]n]" sit in `s`. */
  predicate RectTextAt(s: string, c: char, m: nat, n: nat) {
    && NumberAt(s, 3, m, ']') && NumberAt(s, 3 + |Decimal(m)| + 1, n, ']')
    && StartsWith(s, "[[") && s[2] == c
  }

  lemma TextRectangular(c: char, m: nat, n: nat, rest: string)
    ensures RectTextAt(Rectangular(c, m, n) + rest, c, m, n)
  {
    var s := Rectangular(c, m, n) + rest;
    assert s[..2] == "[[" && s[2] == c;
    RegroupNumber(s, "[[" + [c], Decimal(m), Decimal(n) + "]", rest);
    NumberAtText(s, "[[" + [c], 3, m, ']', Decimal(n) + "]" + rest);
    NumberAtText(s, "[[" + [c] + Decimal(m) + "]", 3 + |Decimal(m)| + 1, n, ']', rest);
  }

  lemma TextRectangularAt(s: string, c: char, m: nat, n: nat)
    requires TextAt(s, 0, Rectangular(c, m, n))
    ensures RectTextAt(s, c, m, n)
  {
    var x := Rectangular(c, m, n);
    SplitAt(s, x);
    TextRectangular(c, m, n, s[|x|..]);
  }

  /** Where the pieces of a jagged shape "[[T]n](k1)...(kn)" sit in `s`. */
  predicate JaggedTextAt(s: string, c: char, rows: seq<int>)
    requires SizesOk(rows)
  {
    && NumberAt(s, 3 + 1, |rows|, ']') && StartsWith(s, "[[") && s[2] == c && s[3] == ']'
    && GroupsAt(s, 3 + 1 + |Decimal(|rows|)|, rows)
  }

  lemma TextJagged(c: char, rows: seq<int>, rest: string)
    requires SizesOk(rows)
    ensures JaggedTextAt(Jagged(c, rows) + rest, c, rows)
  {
    var s := Jagged(c, rows) + rest;
    var dn := Decimal(|rows|);
    assert s[..2] == "[[" && s[2] == c && s[3] == ']';
    RegroupNumber(s, "[[" + [c] + "]", dn, RowGroups(rows), rest);
    NumberAtText(s, "[[" + [c] + "]", 3 + 1, |rows|, ']', RowGroups(rows) + rest);
    GroupsAtText(s, "[[" + [c] + "]" + dn + "]", 3 + 1 + |dn|, rows, rest);
  }

  lemma TextJaggedAt(s: string, c: char, rows: seq<int>)
    requires SizesOk(rows) && TextAt(s, 0, Jagged(c, rows))
    ensures JaggedTextAt(s, c, rows)
  {
    var x := Jagged(c, rows);
    SplitAt(s, x);
    TextJagged(c, rows, s[|x|..]);
  }

  // ---- reading numbers back

  /** A number written in decimal and closed by its stop character is read
      back, up to the stop index `e`. */
  lemma ReadNumberAt(s: string, q: nat, n: nat, stop: char, e: nat)
    requires SizeOk(n) && !IsDigit(stop) && NumberAt(s, q, n, stop) && e == q + |Decimal(n)|
    ensures ReadNumberFromDescriptor(s, stop, q) == Ok(Number(n, e))
  {
    var d := Decimal(n);
    DecimalDigits(n);
    forall k | q <= k < q + |d| ensures s[k] != stop {
      assert s[k] == s[q..q + |d|][k - q];
    }
    IndexOfAt(s, stop, q, q + |d|);
    ParseIntDecimal(n);
  }

  /** An empty number, a stop character right at the start, reads as 0. */
  lemma ReadEmptyAt(s: string, q: nat, stop: char)
    requires q < |s| && s[q] == stop
    ensures ReadNumberFromDescriptor(s, stop, q) == Ok(Number(0, q))
  {
    IndexOfAt(s, stop, q, q);
  }

  lemma SplitLast(xs: seq<int>)
    requires xs != []
    ensures xs[..|xs| - 1] + [xs[|xs| - 1]] == xs
  {
  }

  /** The last "(k)" group read by the jagged loop. */
  lemma RowsFromLast(s: string, rows: seq<int>, base: nat, mid: nat, stop: nat)
    requires rows != []
    requires RowsFrom(s, |rows[..|rows| - 1]|, base) == Ok(Rows(rows[..|rows| - 1], mid))
    requires ReadNumberFromDescriptor(s, JAGGED_D_E, mid + 2) == Ok(Number(rows[|rows| - 1], stop))
    ensures RowsFrom(s, |rows|, base) == Ok(Rows(rows, stop))
  {
    var prev, num := Rows(rows[..|rows| - 1], mid), Number(rows[|rows| - 1], stop);
    SplitLast(rows);
    RowsFromStep(s, |rows[..|rows| - 1]|, |rows|, base, prev, num);
  }

  /** The "(k)" groups are read back by the jagged loop started at the ']'
      at `base`. */
  lemma {:induction false} RowsFromAt(s: string, rows: seq<int>, base: nat)
    requires SizesOk(rows) && GroupsAt(s, base, rows)
    ensures RowsFrom(s, |rows|, base) == Ok(Rows(rows, base + |RowGroups(rows)|))
    decreases |rows|
  {
    if rows != [] {
      var init, last := rows[..|rows| - 1], rows[|rows| - 1];
      var mid, stop := base + |RowGroups(init)|, base + |RowGroups(rows)|;
      RowsFromAt(s, init, base);
      RowGroupsLength(rows);
      ReadNumberAt(s, mid + 2, last, ')', stop);
      RowsFromLast(s, rows, base, mid, stop);
    }
  }

  // ---- one descriptor, from where its pieces sit

  lemma Parse1DAt(reg: Registry, s: string, c: char, n: nat, e: nat)
    requires SizeOk(n) && OneDTextAt(s, c, n) && e == 2 + |Decimal(n)|
    ensures ParseDescriptor(reg, s) == Ok(Descriptor(reg.mapTag(c), Array1D(n), e + 1))
  {
    ReadNumberAt(s, 2, n, ']', e);
    Parse1DStep(reg, s, n, e);
  }

  lemma ParseRectangularAt(reg: Registry, s: string, c: char, m: nat, n: nat, mStop: nat, nStop: nat)
    requires SizeOk(m) && SizeOk(n) && m != 0 && RectTextAt(s, c, m, n)
    requires mStop == 3 + |Decimal(m)| && nStop == mStop + 1 + |Decimal(n)|
    ensures ParseDescriptor(reg, s) == Ok(Descriptor(reg.mapTag(c), Array2D(Repeat(m, n)), nStop + 1))
  {
    ReadNumberAt(s, 3, m, ']', mStop);
    ReadNumberAt(s, mStop + 1, n, ']', nStop);
    ParseRectangularStep(reg, s, m, mStop, n, nStop);
  }

  /** The jagged branch reads the row sizes back from the groups. */
  lemma JaggedRowsAt(s: string, rows: seq<int>, base: nat)
    requires SizesOk(rows) && |rows| > 0 && GroupsAt(s, base, rows)
    ensures JaggedRows(s, |rows|, base) == Ok(Rows(rows, base + |RowGroups(rows)|))
  {
    RowsFromAt(s, rows, base);
  }

  /** The three reads of the jagged branch, from where the pieces sit. */
  lemma JaggedReadsAt(s: string, c: char, rows: seq<int>, base: nat, last: nat)
    requires SizeOk(|rows|) && SizesOk(rows) && |rows| > 0 && JaggedTextAt(s, c, rows)
    requires base == 3 + 1 + |Decimal(|rows|)| && last == base + |RowGroups(rows)|
    ensures ReadNumberFromDescriptor(s, ARRAY_E, 3) == Ok(Number(0, 3))
    ensures ReadNumberFromDescriptor(s, ARRAY_E, 3 + 1) == Ok(Number(|rows|, base))
    ensures JaggedRows(s, |rows|, base) == Ok(Rows(rows, last))
  {
    ReadEmptyAt(s, 3, ARRAY_E);
    ReadNumberAt(s, 3 + 1, |rows|, ARRAY_E, base);
    JaggedRowsAt(s, rows, base);
  }

  lemma ParseJaggedAt(reg: Registry, s: string, c: char, rows: seq<int>, base: nat, last: nat)
    requires SizeOk(|rows|) && SizesOk(rows) && |rows| > 0 && JaggedTextAt(s, c, rows)
    requires base == 3 + 1 + |Decimal(|rows|)| && last == base + |RowGroups(rows)|
    ensures ParseDescriptor(reg, s) == Ok(Descriptor(reg.mapTag(c), Array2D(rows), last + 1))
  {
    JaggedReadsAt(s, c, rows, base, last);
    ParseJaggedStep(reg, s, 3, 3 + 1, |rows|, base, rows, last);
  }

  // ---- one descriptor, from its text

  /** readOneDescriptor reads every well-formed shape back from any text
      that begins with its rendering, whatever follows. */
  lemma ParseRendered(reg: Registry, t: Token, s: string)
    requires WellFormed(t) && TextAt(s, 0, Render(t))
    ensures ParseDescriptor(reg, s) == Ok(DescriptorOf(reg, t))
  {
    var c := t.code;
    match t.shape
    case Scalar =>
      assert s[0] == Render(t)[0];
    case Array1D(n) =>
      var e := 2 + |Decimal(n)|;
      Text1DAt(s, c, n);
      Parse1DAt(reg, s, c, n, e);
    case Array2D(rows) =>
      if |rows| == 0 {
        ParseRenderedRectangular(reg, s, c, 1, 0);
        assert Repeat(1, 0) == rows;
      } else if IsRectangular(rows) {
        ParseRenderedRectangular(reg, s, c, rows[0], |rows|);
        assert Repeat(rows[0], |rows|) == rows;
      } else {
        ParseRenderedJagged(reg, s, c, rows);
      }
  }

  lemma ParseRenderedRectangular(reg: Registry, s: string, c: char, m: nat, n: nat)
    requires SizeOk(m) && SizeOk(n) && m != 0 && TextAt(s, 0, Rectangular(c, m, n))
    ensures ParseDescriptor(reg, s) == Ok(Descriptor(reg.mapTag(c), Array2D(Repeat(m, n)), |Rectangular(c, m, n)|))
  {
    var mStop := 3 + |Decimal(m)|;
    var nStop := mStop + 1 + |Decimal(n)|;
    TextRectangularAt(s, c, m, n);
    ParseRectangularAt(reg, s, c, m, n, mStop, nStop);
  }

  lemma ParseRenderedJagged(reg: Registry, s: string, c: char, rows: seq<int>)
    requires SizeOk(|rows|) && SizesOk(rows) && |rows| > 0 && TextAt(s, 0, Jagged(c, rows))
    ensures ParseDescriptor(reg, s) == Ok(Descriptor(reg.mapTag(c), Array2D(rows), |Jagged(c, rows)|))
  {
    var base := 3 + 1 + |Decimal(|rows|)|;
    var last := base + |RowGroups(rows)|;
    TextJaggedAt(s, c, rows);
    ParseJaggedAt(reg, s, c, rows, base, last);
  }

  // ---- the descriptor loop

  /** Text holding `head` then `tail` at `pos` holds `head` at the start of
      what follows `pos`, and `tail` right after it. */
  lemma TextAtSplit(s: string, pos: nat, head: string, tail: string)
    requires TextAt(s, pos, head + tail)
    ensures pos <= |s| && TextAt(s[pos..], 0, head) && TextAt(s, pos + |head|, tail)
  {
    assert s[pos..pos + |head + tail|] == head + tail;
    assert s[pos..][..|head|] == (head + tail)[..|head|];
    assert s[pos + |head|..pos + |head| + |tail|] == (head + tail)[|head|..];
  }

  /** The descriptor loop of decodeArgumentsWithDescriptor reads a run of
      well-formed shapes that fills the rest of the text back as one
      descriptor per shape, in order. */
  lemma {:induction false} ReadDescriptorsAt(reg: Registry, s: string, pos: nat, ts: seq<Token>)
    requires AllWellFormed(ts) && TextAt(s, pos, RenderAll(ts)) && pos + |RenderAll(ts)| == |s|
    ensures ReadDescriptors(reg, s, pos) == Ok(DescriptorsOf(reg, ts))
    decreases |ts|
  {
    if ts != [] {
      var head, tail := Render(ts[0]), RenderAll(ts[1..]);
      var next := pos + |head|;
      var d, ds := DescriptorOf(reg, ts[0]), DescriptorsOf(reg, ts[1..]);
      TextAtSplit(s, pos, head, tail);
      ParseRendered(reg, ts[0], s[pos..]);
      ReadDescriptorsAt(reg, s, next, ts[1..]);
      ReadDescriptorsStep(reg, s, pos, next, d, ds);
    }
  }

  lemma ReadDescriptorsRendered(reg: Registry, ts: seq<Token>)
    requires AllWellFormed(ts)
    ensures ReadDescriptors(reg, RenderAll(ts), 0) == Ok(DescriptorsOf(reg, ts))
  {
    var s := RenderAll(ts);
    assert s[0..|s|] == s;
    ReadDescriptorsAt(reg, s, 0, ts);
  }

  // ---- the shapes of the grammar, on examples

  lemma ExampleScalar(reg: Registry)
    ensures ParseDescriptor(reg, "i") == Ok(Descriptor(reg.mapTag('i'), Scalar, 1))
  {
  }

  lemma Example1D(reg: Registry)
    ensures ParseDescriptor(reg, "[i3]") == Ok(Descriptor(reg.mapTag('i'), Array1D(3), 4))
  {
    var t := Token('i', Array1D(3));
    assert Decimal(3) == "3";
    assert Render(t) == "[i3]";
    ParseRendered(reg, t, "[i3]");
  }

  lemma ExampleRectangular(reg: Registry)
    ensures ParseDescriptor(reg, "[[i3]2]") == Ok(Descriptor(reg.mapTag('i'), Array2D([3, 3]), 7))
  {
    var t := Token('i', Array2D([3, 3]));
    assert Decimal(2) == "2" && Decimal(3) == "3";
    assert IsRectangular([3, 3]);
    assert Render(t) == "[[i3]2]";
    ParseRendered(reg, t, "[[i3]2]");
  }

  lemma ExampleJagged(reg: Registry)
    ensures ParseDescriptor(reg, "[[i]2](1)(4)") == Ok(Descriptor(reg.mapTag('i'), Array2D([1, 4]), 12))
  {
    var s := "[[i]2](1)(4)";
    assert Decimal(1) == "1" && Decimal(2) == "2" && Decimal(4) == "4";
    assert [1, 4][..1] == [1];
    assert RowGroups([1]) == "(1)";
    assert RowGroups([1, 4]) == "(1)(4)";
    assert Jagged('i', [1, 4]) == s;
    assert s[0..|s|] == s;
    ParseRenderedJagged(reg, s, 'i', [1, 4]);
  }
}
