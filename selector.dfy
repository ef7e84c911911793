/** Choosing the main-class method a payload calls (matchMethodSelector),
    and what the choice is for payloads laid out as the encoder writes them. */
module Selector {
  import opened Base
  import opened JavaStrings
  import opened ABITypes
  import opened Descriptors
  import opened DescriptorText

  /** Package of the wrapper classes that stand for array parameters. */
  const ARRAY_WRAPPER_PREFIX: string := "org.aion.avm.arraywrapper."

  /** A public method of the main class as reflection reports it: its name,
      whether it is static, and the names of its parameter types. */
  datatype JavaMethod = JavaMethod(name: string, isStatic: bool, parameterTypes: seq<string>)

  // ---- reading the descriptor in step with the parameter list

  /** Distance to the end of a run of "(k)" groups starting at `c`. */
  function GroupsLeft(desc: string, c: nat): nat {
    if c < |desc| && desc[c] == JAGGED_D_S then |desc| - c + 1 else 0
  }

  /** The loop that skips the "(k)" row groups of a jagged descriptor: each
      turn moves just past the next ')'. A missing ')' sends the index back
      to 0, where the text cannot open a group. */
  function SkipGroups(desc: string, c: nat): (r: nat)
    requires |desc| > 0 && desc[0] != JAGGED_D_S && c <= |desc|
    ensures r <= |desc| && (r < |desc| ==> desc[r] != JAGGED_D_S)
    decreases GroupsLeft(desc, c)
  {
    if c < |desc| && desc[c] == JAGGED_D_S then
      var next := IndexOf(desc, JAGGED_D_E, c) + 1;
      assert next == 0 || c < next <= |desc|;
      SkipGroups(desc, next)
    else c
  }

  /** One turn of the matching loop: the parameter type `pType` against the
      descriptor starting at `c`. Ok(Some(e)) accepts it and continues at `e`,
      Ok(None) is a mismatch, and reading past the end of the text fails the
      way charAt does. A 2-D descriptor whose 2-D test fails is tried as a
      1-D one. */
  function Step(reg: Registry, desc: string, c: nat, pType: string): (r: Result<Option<nat>>)
    requires reg.MarkersReserved() && c < |desc| && (c == 0 || desc[0] != JAGGED_D_S)
    ensures r.Ok? && r.value.Some? ==> r.value.value <= |desc| && desc[c] != JAGGED_D_S
  {
    if desc[c] == ARRAY_S then
      if c + 1 >= |desc| then Err(IndexOutOfBounds)
      else if desc[c + 1] == ARRAY_S && StartsWith(pType, ARRAY_WRAPPER_PREFIX) && EndsWith(pType, "2D")
              && (c + 2 >= |desc| || pType in reg.identifiers(reg.mapTag(desc[c + 2]))) then
        if c + 2 >= |desc| then Err(IndexOutOfBounds)
        else
          var afterM := IndexOf(desc, ARRAY_E, c) + 1;
          var afterN := IndexOf(desc, ARRAY_E, afterM) + 1;
          Ok(Some(SkipGroups(desc, afterN)))
      else if StartsWith(pType, ARRAY_WRAPPER_PREFIX) && !EndsWith(pType, "2D")
              && pType in reg.identifiers(reg.mapTag(desc[c + 1])) then
        Ok(Some(IndexOf(desc, ARRAY_E, c) + 1))
      else Ok(None)
    else if !StartsWith(pType, ARRAY_WRAPPER_PREFIX) && pType in reg.identifiers(reg.mapTag(desc[c])) then
      Ok(Some(c + 1))
    else Ok(None)
  }

  /** The matching loop from parameter `p` and character `c` on: it stops at
      the first mismatch, or when the parameters or the text run out, and
      accepts only when both ran out together. */
  function MatchFrom(reg: Registry, params: seq<string>, desc: string, p: nat, c: nat): (r: Result<bool>)
    requires reg.MarkersReserved() && p <= |params| && c <= |desc| && |desc| > 0
    requires (p == 0 ==> c == 0) && (p > 0 ==> desc[0] != JAGGED_D_S)
    decreases |params| - p
  {
    if p < |params| && c < |desc| then
      var step :- Step(reg, desc, c, params[p]);
      if step.None? then Ok(false)
      else MatchFrom(reg, params, desc, p + 1, step.value)
    else Ok(p == |params| && c == |desc|)
  }

  /** Whether a method with these parameter types matches the descriptor: no
      parameters match exactly an absent or empty descriptor. */
  function ParamsMatch(reg: Registry, params: seq<string>, desc: Option<string>): (r: Result<bool>)
    requires reg.MarkersReserved()
  {
    var noParams := |params| == 0;
    var noDesc := desc.None? || |desc.value| == 0;
    if noParams && noDesc then Ok(true)
    else if noParams || noDesc then Ok(false)
    else MatchFrom(reg, params, desc.value, 0, 0)
  }

  /** matchMethodSelector over the methods from index `i` on: the first one
      with the requested name decides, whether it matches or not. */
  function SelectFrom(reg: Registry, methods: seq<JavaMethod>, name: string, desc: Option<string>, i: nat): (r: Result<Option<JavaMethod>>)
    requires reg.MarkersReserved() && i <= |methods|
    ensures r.Ok? && r.value.Some? ==> r.value.value in methods[i..] && r.value.value.name == name
    decreases |methods| - i
  {
    if i == |methods| then Ok(None)
    else if methods[i].name == name then
      var ok :- ParamsMatch(reg, methods[i].parameterTypes, desc);
      if ok then Ok(Some(methods[i])) else Ok(None)
    else SelectFrom(reg, methods, name, desc, i + 1)
  }

  function SelectorOf(reg: Registry, methods: seq<JavaMethod>, name: string, desc: Option<string>): (r: Result<Option<JavaMethod>>)
    requires reg.MarkersReserved()
    ensures r.Ok? && r.value.Some? ==> r.value.value in methods && r.value.value.name == name
  {
    assert methods[0..] == methods;
    SelectFrom(reg, methods, name, desc, 0)
  }

  // ---- the selector as the runtime runs it

  /** One descriptor of the lock-step loop of matchMethodSelector, with the
      inner loop over the row groups of a jagged 2-D descriptor. */
  method MatchOneDescriptor(reg: Registry, argsDescriptor: string, start: nat, pType: string) returns (r: Result<Option<nat>>)
    requires reg.MarkersReserved() && start < |argsDescriptor| && (start == 0 || argsDescriptor[0] != JAGGED_D_S)
    ensures r == Step(reg, argsDescriptor, start, pType)
  {
    var charIdx: nat := start;
    if argsDescriptor[charIdx] == ARRAY_S {
      if charIdx + 1 >= |argsDescriptor| {
        return Err(IndexOutOfBounds);
      }
      if argsDescriptor[charIdx + 1] == ARRAY_S && StartsWith(pType, ARRAY_WRAPPER_PREFIX) && EndsWith(pType, "2D") {
        if charIdx + 2 >= |argsDescriptor| {
          return Err(IndexOutOfBounds);
        }
        if pType in reg.identifiers(reg.mapTag(argsDescriptor[charIdx + 2])) {
          charIdx := IndexOf(argsDescriptor, ARRAY_E, charIdx) + 1;
          charIdx := IndexOf(argsDescriptor, ARRAY_E, charIdx) + 1;
          ghost var afterN := charIdx;
          while charIdx < |argsDescriptor| && argsDescriptor[charIdx] == JAGGED_D_S
            invariant charIdx <= |argsDescriptor|
            invariant SkipGroups(argsDescriptor, charIdx) == SkipGroups(argsDescriptor, afterN)
            decreases GroupsLeft(argsDescriptor, charIdx)
          {
            charIdx := IndexOf(argsDescriptor, JAGGED_D_E, charIdx) + 1;
          }
          return Ok(Some(charIdx));
        }
      }
      if StartsWith(pType, ARRAY_WRAPPER_PREFIX) && !EndsWith(pType, "2D")
         && pType in reg.identifiers(reg.mapTag(argsDescriptor[charIdx + 1])) {
        return Ok(Some(IndexOf(argsDescriptor, ARRAY_E, charIdx) + 1));
      }
      return Ok(None);
    } else {
      if !StartsWith(pType, ARRAY_WRAPPER_PREFIX) && pType in reg.identifiers(reg.mapTag(argsDescriptor[charIdx])) {
        return Ok(Some(charIdx + 1));
      }
      return Ok(None);
    }
  }

  /** matchMethodSelector. A null answer is Ok(None). */
  method MatchMethodSelector(reg: Registry, methods: seq<JavaMethod>, methodName: string, argsDescriptor: Option<string>)
    returns (r: Result<Option<JavaMethod>>)
    requires reg.MarkersReserved()
    ensures r == SelectorOf(reg, methods, methodName, argsDescriptor)
  {
    assert methods[0..] == methods;
    for i := 0 to |methods|
      invariant SelectFrom(reg, methods, methodName, argsDescriptor, 0) == SelectFrom(reg, methods, methodName, argsDescriptor, i)
    {
      var candidate := methods[i];
      if candidate.name == methodName {
        var parameterTypes := candidate.parameterTypes;
        if |parameterTypes| == 0 && (argsDescriptor.None? || |argsDescriptor.value| == 0) {
          return Ok(Some(candidate));
        }
        if |parameterTypes| == 0 || argsDescriptor.None? || |argsDescriptor.value| == 0 {
          return Ok(None);
        }
        var desc := argsDescriptor.value;
        var matched := true;
        var parIdx: nat := 0;
        var charIdx: nat := 0;
        while parIdx < |parameterTypes| && charIdx < |desc|
          invariant parIdx <= |parameterTypes| && charIdx <= |desc|
          invariant (parIdx == 0 ==> charIdx == 0) && (parIdx > 0 ==> desc[0] != JAGGED_D_S)
          invariant MatchFrom(reg, parameterTypes, desc, 0, 0) == MatchFrom(reg, parameterTypes, desc, parIdx, charIdx)
          decreases |parameterTypes| - parIdx
        {
          var step := MatchOneDescriptor(reg, desc, charIdx, parameterTypes[parIdx]);
          if step.Err? {
            return Err(step.error);
          }
          if step.value.None? {
            matched := false;
            break;
          }
          charIdx := step.value.value;
          parIdx := parIdx + 1;
        }
        if !matched || parIdx < |parameterTypes| || charIdx < |desc| {
          return Ok(None);
        }
        return Ok(Some(candidate));
      }
    }
    return Ok(None);
  }

  // ---- which method gets selected

  /** Methods without the requested name are passed over. */
  lemma {:induction false} SelectFromSkips(reg: Registry, methods: seq<JavaMethod>, name: string, desc: Option<string>, i: nat, j: nat)
    requires reg.MarkersReserved() && i <= j <= |methods|
    requires forall k :: i <= k < j ==> methods[k].name != name
    ensures SelectFrom(reg, methods, name, desc, i) == SelectFrom(reg, methods, name, desc, j)
    decreases j - i
  {
    if i < j {
      SelectFromSkips(reg, methods, name, desc, i + 1, j);
    }
  }

  /** Only the first method with the requested name is ever considered: it
      is selected when its parameters match, and otherwise nothing is, even
      when a later overload would match. */
  lemma SelectorFirstNamed(reg: Registry, methods: seq<JavaMethod>, name: string, desc: Option<string>, j: nat)
    requires reg.MarkersReserved() && j < |methods| && methods[j].name == name
    requires forall k :: 0 <= k < j ==> methods[k].name != name
    ensures SelectorOf(reg, methods, name, desc) ==
      var ok :- ParamsMatch(reg, methods[j].parameterTypes, desc);
      Ok(if ok then Some(methods[j]) else None)
  {
    SelectFromSkips(reg, methods, name, desc, 0, j);
  }

  /** No method with the requested name selects nothing. */
  lemma SelectorUnnamed(reg: Registry, methods: seq<JavaMethod>, name: string, desc: Option<string>)
    requires reg.MarkersReserved()
    requires forall k :: 0 <= k < |methods| ==> methods[k].name != name
    ensures SelectorOf(reg, methods, name, desc) == Ok(None)
  {
    SelectFromSkips(reg, methods, name, desc, 0, |methods|);
  }

  // ---- matching the descriptors the encoder writes

  /** The parameter types an argument of shape `t` binds to: one of the
      type's identifiers, a wrapper class exactly for arrays, and one whose
      name ends in "2D" exactly for 2-D arrays. */
  predicate Fits(reg: Registry, t: Token, pType: string) {
    && pType in reg.identifiers(reg.mapTag(t.code))
    && match t.shape
       case Scalar => !StartsWith(pType, ARRAY_WRAPPER_PREFIX)
       case Array1D(_) => StartsWith(pType, ARRAY_WRAPPER_PREFIX) && !EndsWith(pType, "2D")
       case Array2D(_) => StartsWith(pType, ARRAY_WRAPPER_PREFIX) && EndsWith(pType, "2D")
  }

  /** Text found at `c` is found at the start of what follows `c`. */
  lemma FromHere(s: string, c: nat, x: string)
    requires TextAt(s, c, x)
    ensures c <= |s| && TextAt(s[c..], 0, x)
  {
    assert s[c..][0..|x|] == s[c..c + |x|];
  }

  /** Text found at `q` in what follows `c` is found at `c + q`. */
  lemma BackThere(s: string, c: nat, q: nat, x: string)
    requires c <= |s| && TextAt(s[c..], q, x)
    ensures TextAt(s, c + q, x)
  {
    assert s[c..][q..q + |x|] == s[c + q..c + q + |x|];
  }

  lemma NumberBackThere(s: string, c: nat, q: nat, n: nat, stop: char)
    requires c <= |s| && NumberAt(s[c..], q, n, stop)
    ensures NumberAt(s, c + q, n, stop)
  {
    BackThere(s, c, q, Decimal(n));
    assert s[c..][q + |Decimal(n)|] == s[c + q + |Decimal(n)|];
  }

  /** Decimal digits hold neither ']' nor ')', so indexOf passes over them. */
  lemma IndexOfNumber(s: string, q: nat, n: nat, stop: char)
    requires NumberAt(s, q, n, stop) && (stop == ARRAY_E || stop == JAGGED_D_E)
    ensures IndexOf(s, stop, q) == q + |Decimal(n)|
  {
    var d := Decimal(n);
    DecimalDigits(n);
    forall k | q <= k < q + |d|
      ensures s[k] != stop
    {
      assert s[k] == s[q..q + |d|][k - q];
    }
    IndexOfAt(s, stop, q, q + |d|);
  }

  lemma Text1DPos(s: string, c: nat, code: char, n: nat)
    requires !IsMarker(code) && TextAt(s, c, "[" + [code] + Decimal(n) + "]")
    ensures s[c] == ARRAY_S && s[c + 1] == code && NumberAt(s, c + 2, n, ARRAY_E)
  {
    FromHere(s, c, "[" + [code] + Decimal(n) + "]");
    var u := s[c..];
    Text1DAt(u, code, n);
    assert u[0] == s[c] && u[1] == s[c + 1];
    NumberBackThere(s, c, 2, n, ARRAY_E);
  }

  lemma TextRectPos(s: string, c: nat, code: char, m: nat, n: nat)
    requires TextAt(s, c, Rectangular(code, m, n))
    ensures s[c] == ARRAY_S && s[c + 1] == ARRAY_S && s[c + 2] == code
    ensures NumberAt(s, c + 3, m, ARRAY_E) && NumberAt(s, c + 4 + |Decimal(m)|, n, ARRAY_E)
  {
    FromHere(s, c, Rectangular(code, m, n));
    var u := s[c..];
    TextRectangularAt(u, code, m, n);
    assert u[0] == s[c] && u[1] == s[c + 1] && u[2] == s[c + 2];
    NumberBackThere(s, c, 3, m, ARRAY_E);
    NumberBackThere(s, c, 3 + |Decimal(m)| + 1, n, ARRAY_E);
  }

  /** Where the row groups of a jagged shape begin. */
  lemma JaggedGroupsText(code: char, rows: seq<int>, rest: string)
    requires SizesOk(rows)
    ensures TextAt(Jagged(code, rows) + rest, 5 + |Decimal(|rows|)|, RowGroups(rows))
  {
    var pre := "[[" + [code] + "]" + Decimal(|rows|) + "]";
    var g := RowGroups(rows);
    var s := pre + g + rest;
    assert |pre| == 5 + |Decimal(|rows|)|;
    assert s[|pre|..|pre| + |g|] == g;
  }

  lemma TextJaggedPos(s: string, c: nat, code: char, rows: seq<int>)
    requires SizesOk(rows) && TextAt(s, c, Jagged(code, rows))
    ensures s[c] == ARRAY_S && s[c + 1] == ARRAY_S && s[c + 2] == code && s[c + 3] == ARRAY_E
    ensures NumberAt(s, c + 4, |rows|, ARRAY_E)
    ensures TextAt(s, c + 5 + |Decimal(|rows|)|, RowGroups(rows))
  {
    var x := Jagged(code, rows);
    FromHere(s, c, x);
    var u := s[c..];
    TextJaggedAt(u, code, rows);
    assert u[0] == s[c] && u[1] == s[c + 1] && u[2] == s[c + 2] && u[3] == s[c + 3];
    NumberBackThere(s, c, 3 + 1, |rows|, ARRAY_E);
    SplitAt(u, x);
    JaggedGroupsText(code, rows, u[|x|..]);
    BackThere(s, c, 5 + |Decimal(|rows|)|, RowGroups(rows));
  }

  /** Where the pieces of one row group and the groups after it sit. */
  lemma GroupText(n: nat, tail: string, rest: string)
    ensures var v := "(" + Decimal(n) + ")" + tail + rest;
      v[0] == JAGGED_D_S && NumberAt(v, 1, n, JAGGED_D_E) && TextAt(v, 2 + |Decimal(n)|, tail)
  {
    var d := Decimal(n);
    var v := "(" + d + ")" + tail + rest;
    assert v == "(" + d + [')'] + (tail + rest);
    NumberAtText(v, "(", 1, n, JAGGED_D_E, tail + rest);
    assert v[2 + |d|..2 + |d| + |tail|] == tail;
  }

  /** The first row group and the rest. */
  lemma {:induction false} RowGroupsCons(rows: seq<int>)
    requires SizesOk(rows) && |rows| > 0
    ensures RowGroups(rows) == "(" + Decimal(rows[0]) + ")" + RowGroups(rows[1..])
    decreases |rows|
  {
    if |rows| > 1 {
      var init := rows[..|rows| - 1];
      var last := rows[|rows| - 1];
      RowGroupsCons(init);
      assert rows[1..][..|rows[1..]| - 1] == init[1..];
      assert init[0] == rows[0];
    } else {
      assert rows[..0] == [];
      assert rows[1..] == [];
    }
  }

  /** One row group "(k)" at `q`: the skip loop's indexOf finds its ')'. */
  lemma GroupAtPos(s: string, q: nat, n: nat, tail: string)
    requires TextAt(s, q, "(" + Decimal(n) + ")" + tail)
    ensures q < |s| && s[q] == JAGGED_D_S
    ensures IndexOf(s, JAGGED_D_E, q) == q + 1 + |Decimal(n)|
    ensures TextAt(s, q + 2 + |Decimal(n)|, tail)
  {
    var x := "(" + Decimal(n) + ")" + tail;
    FromHere(s, q, x);
    var u := s[q..];
    SplitAt(u, x);
    GroupText(n, tail, u[|x|..]);
    assert u[0] == s[q];
    NumberBackThere(s, q, 1, n, JAGGED_D_E);
    BackThere(s, q, 2 + |Decimal(n)|, tail);
    IndexOfNumber(s, q + 1, n, JAGGED_D_E);
  }

  /** One turn of the skip loop over a group opened at `q`. */
  lemma SkipGroupStep(s: string, q: nat, next: nat)
    requires |s| > 0 && s[0] != JAGGED_D_S && q < |s| && s[q] == JAGGED_D_S
    requires next == IndexOf(s, JAGGED_D_E, q) + 1 && next > q
    ensures SkipGroups(s, q) == SkipGroups(s, next)
  {
  }

  /** The skip loop moves past exactly the row groups of a jagged shape. */
  lemma {:induction false} SkipRowGroups(s: string, q: nat, rows: seq<int>)
    requires |s| > 0 && s[0] != JAGGED_D_S && SizesOk(rows)
    requires TextAt(s, q, RowGroups(rows))
    requires q + |RowGroups(rows)| < |s| ==> s[q + |RowGroups(rows)|] != JAGGED_D_S
    ensures SkipGroups(s, q) == q + |RowGroups(rows)|
    decreases |rows|
  {
    if rows != [] {
      var d := Decimal(rows[0]);
      var tail := RowGroups(rows[1..]);
      RowGroupsCons(rows);
      GroupAtPos(s, q, rows[0], tail);
      var next := q + 2 + |d|;
      SkipGroupStep(s, q, next);
      SkipRowGroups(s, next, rows[1..]);
    }
  }

  // ---- one turn of the loop on rendered text

  lemma StepScalarAt(reg: Registry, s: string, c: nat, code: char, pType: string)
    requires reg.MarkersReserved() && !IsMarker(code) && c < |s| && s[c] == code
    requires c == 0 || s[0] != JAGGED_D_S
    ensures Step(reg, s, c, pType) ==
      if Fits(reg, Token(code, Scalar), pType) then Ok(Some(c + 1)) else Ok(None)
  {
  }

  lemma Step1DAt(reg: Registry, s: string, c: nat, code: char, n: nat, pType: string)
    requires reg.MarkersReserved() && !IsMarker(code)
    requires TextAt(s, c, "[" + [code] + Decimal(n) + "]")
    requires c == 0 || s[0] != JAGGED_D_S
    ensures Step(reg, s, c, pType) ==
      if Fits(reg, Token(code, Array1D(n)), pType) then Ok(Some(c + 3 + |Decimal(n)|)) else Ok(None)
  {
    Text1DPos(s, c, code, n);
    IndexOfNumber(s, c + 2, n, ARRAY_E);
    assert IndexOf(s, ARRAY_E, c) == IndexOf(s, ARRAY_E, c + 1) == IndexOf(s, ARRAY_E, c + 2);
  }

  /** indexOf passes over three characters that are not the one sought. */
  lemma IndexOfPast3(s: string, ch: char, c: nat)
    requires c + 3 <= |s| && s[c] != ch && s[c + 1] != ch && s[c + 2] != ch
    ensures IndexOf(s, ch, c) == IndexOf(s, ch, c + 3)
  {
    assert IndexOf(s, ch, c) == IndexOf(s, ch, c + 1);
    assert IndexOf(s, ch, c + 1) == IndexOf(s, ch, c + 2);
  }

  /** Where the 2-D skip of `Step` ends on a rectangular shape's text. */
  lemma RectSkipEnd(s: string, c: nat, code: char, m: nat, n: nat, e: nat)
    requires !IsMarker(code)
    requires TextAt(s, c, Rectangular(code, m, n)) && e == c + |Rectangular(code, m, n)|
    requires c == 0 || s[0] != JAGGED_D_S
    requires e < |s| ==> s[e] != JAGGED_D_S
    ensures c + 2 < |s| && s[c] == ARRAY_S && s[c + 1] == ARRAY_S && s[c + 2] == code
    ensures s[0] != JAGGED_D_S
    ensures IndexOf(s, ARRAY_E, IndexOf(s, ARRAY_E, c) + 1) + 1 <= |s|
    ensures SkipGroups(s, IndexOf(s, ARRAY_E, IndexOf(s, ARRAY_E, c) + 1) + 1) == e
  {
    var dm, dn := Decimal(m), Decimal(n);
    TextRectPos(s, c, code, m, n);
    IndexOfPast3(s, ARRAY_E, c);
    var q1 := c + 3;
    IndexOfNumber(s, q1, m, ARRAY_E);
    var q2 := q1 + |dm| + 1;
    IndexOfNumber(s, q2, n, ARRAY_E);
    assert |Rectangular(code, m, n)| == 5 + |dm| + |dn|;
  }

  lemma StepRectangularAt(reg: Registry, s: string, c: nat, code: char, m: nat, n: nat, rows: seq<int>, e: nat, pType: string)
    requires reg.MarkersReserved() && !IsMarker(code)
    requires TextAt(s, c, Rectangular(code, m, n)) && e == c + |Rectangular(code, m, n)|
    requires c == 0 || s[0] != JAGGED_D_S
    requires e < |s| ==> s[e] != JAGGED_D_S
    ensures Step(reg, s, c, pType) ==
      if Fits(reg, Token(code, Array2D(rows)), pType) then Ok(Some(e)) else Ok(None)
  {
    RectSkipEnd(s, c, code, m, n, e);
    Step2DBranch(reg, s, c, e, pType);
  }

  /** Where the 2-D skip of `Step` ends on a jagged shape's text. */
  lemma JaggedSkipEnd(s: string, c: nat, code: char, rows: seq<int>, e: nat)
    requires !IsMarker(code) && SizesOk(rows)
    requires TextAt(s, c, Jagged(code, rows)) && e == c + |Jagged(code, rows)|
    requires c == 0 || s[0] != JAGGED_D_S
    requires e < |s| ==> s[e] != JAGGED_D_S
    ensures c + 2 < |s| && s[c] == ARRAY_S && s[c + 1] == ARRAY_S && s[c + 2] == code
    ensures s[0] != JAGGED_D_S
    ensures IndexOf(s, ARRAY_E, IndexOf(s, ARRAY_E, c) + 1) + 1 <= |s|
    ensures SkipGroups(s, IndexOf(s, ARRAY_E, IndexOf(s, ARRAY_E, c) + 1) + 1) == e
  {
    var dn := Decimal(|rows|);
    TextJaggedPos(s, c, code, rows);
    var afterM := c + 4;
    IndexOfPast3(s, ARRAY_E, c);
    IndexOfNumber(s, afterM, |rows|, ARRAY_E);
    var afterN := afterM + |dn| + 1;
    assert |Jagged(code, rows)| == 5 + |dn| + |RowGroups(rows)|;
    SkipRowGroups(s, afterN, rows);
  }

  /** The 2-D branch of `Step` when the text holds "[[" and a code. */
  lemma Step2DBranch(reg: Registry, s: string, c: nat, e: nat, pType: string)
    requires reg.MarkersReserved() && c + 2 < |s| && s[c] == ARRAY_S && s[c + 1] == ARRAY_S
    requires c == 0 || s[0] != JAGGED_D_S
    requires s[0] != JAGGED_D_S
    requires IndexOf(s, ARRAY_E, IndexOf(s, ARRAY_E, c) + 1) + 1 <= |s|
    requires SkipGroups(s, IndexOf(s, ARRAY_E, IndexOf(s, ARRAY_E, c) + 1) + 1) == e
    ensures Step(reg, s, c, pType) ==
      if StartsWith(pType, ARRAY_WRAPPER_PREFIX) && EndsWith(pType, "2D")
         && pType in reg.identifiers(reg.mapTag(s[c + 2]))
      then Ok(Some(e)) else Ok(None)
  {
  }

  lemma StepJaggedAt(reg: Registry, s: string, c: nat, code: char, rows: seq<int>, e: nat, pType: string)
    requires reg.MarkersReserved() && !IsMarker(code) && SizesOk(rows)
    requires TextAt(s, c, Jagged(code, rows)) && e == c + |Jagged(code, rows)|
    requires c == 0 || s[0] != JAGGED_D_S
    requires e < |s| ==> s[e] != JAGGED_D_S
    ensures Step(reg, s, c, pType) ==
      if Fits(reg, Token(code, Array2D(rows)), pType) then Ok(Some(e)) else Ok(None)
  {
    JaggedSkipEnd(s, c, code, rows, e);
    Step2DBranch(reg, s, c, e, pType);
  }

  /** On the text the encoder writes for `t`, one turn of the loop accepts
      exactly the parameter types `t` fits and moves just past the shape. */
  lemma StepRendered(reg: Registry, s: string, c: nat, t: Token, pType: string)
    requires reg.MarkersReserved() && WellFormed(t) && TextAt(s, c, Render(t))
    requires c == 0 || s[0] != JAGGED_D_S
    requires c + |Render(t)| < |s| ==> s[c + |Render(t)|] != JAGGED_D_S
    ensures Step(reg, s, c, pType) == if Fits(reg, t, pType) then Ok(Some(c + |Render(t)|)) else Ok(None)
  {
    var e := c + |Render(t)|;
    match t.shape
    case Scalar =>
      assert s[c..c + 1] == [t.code];
      assert s[c] == s[c..c + 1][0];
      StepScalarAt(reg, s, c, t.code, pType);
    case Array1D(n) =>
      Step1DAt(reg, s, c, t.code, n, pType);
    case Array2D(rows) =>
      if |rows| == 0 {
        StepRectangularAt(reg, s, c, t.code, 1, 0, rows, e, pType);
      } else if IsRectangular(rows) {
        StepRectangularAt(reg, s, c, t.code, rows[0], |rows|, rows, e, pType);
      } else {
        StepJaggedAt(reg, s, c, t.code, rows, e, pType);
      }
  }

  // ---- the whole loop on rendered text

  /** Parameter `k` fits shape `k` wherever both exist, from `p` on. */
  predicate FitsFrom(reg: Registry, ts: seq<Token>, params: seq<string>, p: nat) {
    forall k :: p <= k < |ts| && k < |params| ==> Fits(reg, ts[k], params[k])
  }

  lemma FitsFromStep(reg: Registry, ts: seq<Token>, params: seq<string>, p: nat)
    requires p < |ts| && p < |params|
    ensures FitsFrom(reg, ts, params, p) == (Fits(reg, ts[p], params[p]) && FitsFrom(reg, ts, params, p + 1))
  {
  }

  lemma RenderAllFrom(ts: seq<Token>, p: nat)
    requires AllWellFormed(ts) && p < |ts|
    ensures RenderAll(ts[p..]) == Render(ts[p]) + RenderAll(ts[p + 1..])
  {
    assert ts[p..][0] == ts[p] && ts[p..][1..] == ts[p + 1..];
  }

  /** Text made of two parts holds each part where it belongs. */
  lemma TextAtParts(s: string, c: nat, head: string, tail: string)
    requires TextAt(s, c, head + tail)
    ensures TextAt(s, c, head) && TextAt(s, c + |head|, tail)
    ensures |head| > 0 ==> s[c] == head[0]
    ensures |tail| > 0 ==> s[c + |head|] == tail[0]
  {
    TextAtSplit(s, c, head, tail);
    BackThere(s, c, 0, head);
    if |head| > 0 {
      assert s[c] == s[c..c + |head|][0];
    }
    if |tail| > 0 {
      assert s[c + |head|] == s[c + |head|..c + |head| + |tail|][0];
    }
  }

  /** A text made of a head and a tail that ends the string, where neither
      begins with '(': the tail starts right after the head, and the
      character there does not open a group. */
  lemma SplitRun(s: string, c: nat, head: string, tail: string, next: nat)
    requires TextAt(s, c, head + tail) && c + |head + tail| == |s| && next == c + |head|
    requires |head| > 0 && head[0] != JAGGED_D_S && (|tail| > 0 ==> tail[0] != JAGGED_D_S)
    requires c == 0 || s[0] != JAGGED_D_S
    ensures TextAt(s, c, head) && next <= |s| && (next < |s| ==> s[next] != JAGGED_D_S)
    ensures TextAt(s, next, tail) && next + |tail| == |s|
    ensures s[0] != JAGGED_D_S
  {
    TextAtParts(s, c, head, tail);
  }

  /** Where the text of the next shape and of the rest of the run sit. */
  lemma RunTextStep(s: string, ts: seq<Token>, p: nat, c: nat, next: nat)
    requires AllWellFormed(ts) && p < |ts| && |s| > 0
    requires TextAt(s, c, RenderAll(ts[p..])) && c + |RenderAll(ts[p..])| == |s|
    requires (p == 0 ==> c == 0) && (p > 0 ==> s[0] != JAGGED_D_S)
    requires next == c + |Render(ts[p])|
    ensures TextAt(s, c, Render(ts[p])) && next <= |s|
    ensures next < |s| ==> s[next] != JAGGED_D_S
    ensures TextAt(s, next, RenderAll(ts[p + 1..])) && next + |RenderAll(ts[p + 1..])| == |s|
    ensures s[0] != JAGGED_D_S
  {
    var t, rest := ts[p], ts[p + 1..];
    var head, tail := Render(t), RenderAll(rest);
    RenderAllFrom(ts, p);
    assert WellFormed(t);
    assert head[0] != JAGGED_D_S;
    assert |tail| > 0 ==> tail[0] != JAGGED_D_S by {
      if rest == [] {
        assert tail == "";
      }
    }
    SplitRun(s, c, head, tail, next);
  }

  /** One turn of the loop, given what the turn's `Step` yields. */
  lemma MatchFromStep(reg: Registry, params: seq<string>, s: string, p: nat, c: nat, fits: bool, next: nat)
    requires reg.MarkersReserved() && p < |params| && c < |s| && next <= |s| && s[0] != JAGGED_D_S
    requires p == 0 ==> c == 0
    requires Step(reg, s, c, params[p]) == if fits then Ok(Some(next)) else Ok(None)
    ensures MatchFrom(reg, params, s, p, c) ==
      if fits then MatchFrom(reg, params, s, p + 1, next) else Ok(false)
  {
  }

  /** One turn of the loop on the text of a run of shapes: it accepts the
      parameter when it fits the next shape and goes on right after it. */
  lemma MatchTurn(reg: Registry, params: seq<string>, s: string, t: Token, p: nat, c: nat, next: nat)
    requires reg.MarkersReserved() && WellFormed(t) && p < |params|
    requires TextAt(s, c, Render(t)) && next == c + |Render(t)|
    requires next < |s| ==> s[next] != JAGGED_D_S
    requires (p == 0 ==> c == 0) && s[0] != JAGGED_D_S
    ensures MatchFrom(reg, params, s, p, c) ==
      if Fits(reg, t, params[p]) then MatchFrom(reg, params, s, p + 1, next) else Ok(false)
  {
    StepRendered(reg, s, c, t, params[p]);
    MatchFromStep(reg, params, s, p, c, Fits(reg, t, params[p]), next);
  }

  /** Where the loop stops on the text of a run of shapes: when the
      parameters or the shapes run out, it accepts exactly when both did. */
  lemma MatchFromEnd(reg: Registry, params: seq<string>, s: string, ts: seq<Token>, p: nat, c: nat)
    requires reg.MarkersReserved() && AllWellFormed(ts) && p <= |ts| && p <= |params| && |s| > 0
    requires TextAt(s, c, RenderAll(ts[p..])) && c + |RenderAll(ts[p..])| == |s|
    requires (p == 0 ==> c == 0) && (p > 0 ==> s[0] != JAGGED_D_S)
    requires p == |ts| || p == |params|
    ensures MatchFrom(reg, params, s, p, c) == Ok(|params| == |ts| && FitsFrom(reg, ts, params, p))
  {
    if p < |ts| {
      RenderAllFrom(ts, p);
    }
  }

  /** On the text of a run of shapes that fills the descriptor from `c`, the
      loop from parameter `p` accepts exactly when there are as many
      parameters as shapes and each fits its shape. */
  lemma {:induction false} MatchFromRendered(reg: Registry, params: seq<string>, s: string, ts: seq<Token>, p: nat, c: nat)
    requires reg.MarkersReserved() && AllWellFormed(ts) && p <= |ts| && p <= |params| && |s| > 0
    requires TextAt(s, c, RenderAll(ts[p..])) && c + |RenderAll(ts[p..])| == |s|
    requires (p == 0 ==> c == 0) && (p > 0 ==> s[0] != JAGGED_D_S)
    ensures MatchFrom(reg, params, s, p, c) == Ok(|params| == |ts| && FitsFrom(reg, ts, params, p))
    decreases |ts| - p
  {
    if p < |ts| && p < |params| {
      var next := c + |Render(ts[p])|;
      RunTextStep(s, ts, p, c, next);
      MatchTurn(reg, params, s, ts[p], p, c, next);
      FitsFromStep(reg, ts, params, p);
      if Fits(reg, ts[p], params[p]) {
        MatchFromRendered(reg, params, s, ts, p + 1, next);
      }
    } else {
      MatchFromEnd(reg, params, s, ts, p, c);
    }
  }

  /** matchMethodSelector's test of one method against the descriptor the
      encoder writes for a run of shapes: the parameters match exactly when
      they are as many as the shapes and each fits its shape. */
  lemma ParamsMatchRendered(reg: Registry, params: seq<string>, ts: seq<Token>)
    requires reg.MarkersReserved() && AllWellFormed(ts)
    ensures ParamsMatch(reg, params, Some(RenderAll(ts))) ==
      Ok(|params| == |ts| && FitsFrom(reg, ts, params, 0))
  {
    var s := RenderAll(ts);
    if |params| > 0 && |ts| > 0 {
      assert ts[0..] == ts;
      assert s[0..|s|] == s;
      MatchFromRendered(reg, params, s, ts, 0, 0);
    }
  }
}
