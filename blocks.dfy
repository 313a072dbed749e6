/** Block matching by indentation: the forward and backward scans that find
    the terminator of an `if`, `else`, `while` or `lambda` block and the end of
    the body a `return` leaves. Each scan is a recursive function over the
    line it is looking at, whose contract says where it stops, and a loop
    method computing the same result. */
module Blocks {
  import opened Syntax
  import opened Values

  /** `len(line) - len(line.lstrip(' '))`. */
  function LeadingSpaces(s: string): (n: nat)
    ensures n <= |s|
    ensures forall i :: 0 <= i < n ==> s[i] == ' '
    ensures n < |s| ==> s[n] != ' '
  {
    if |s| > 0 && s[0] == ' ' then 1 + LeadingSpaces(s[1..]) else 0
  }

  /** `_compute_indentation`: the indentation of every source line. */
  function Indentation(lines: seq<string>): (ind: seq<int>)
    ensures |ind| == |lines|
    ensures forall i :: 0 <= i < |lines| ==> 0 <= ind[i] <= |lines[i]|
  {
    seq(|lines|, i requires 0 <= i < |lines| => LeadingSpaces(lines[i]))
  }

  /** A tokenized program with one indentation per line. */
  predicate Shaped(prog: seq<seq<Token>>, indents: seq<int>)
  {
    |indents| == |prog|
  }

  /** Line `k` is the terminator `kw` at the indentation of line `base`. */
  predicate Closes(prog: seq<seq<Token>>, indents: seq<int>, base: nat, k: nat, kw: Keyword)
    requires Shaped(prog, indents) && base < |prog| && k < |prog|
  {
    HeadIs(prog[k], kw) && indents[k] == indents[base]
  }

  // ---------------------------------------------------------------------
  // `_if` and `_else`: blank lines are skipped, indentation is compared
  // only for equality, and the scan runs to the end of the program.

  /** First line from `cur` that closes the `if` at `base`: its `endif`
      (`false`) or its `else` (`true`). */
  function IfTarget(prog: seq<seq<Token>>, indents: seq<int>, base: nat, cur: nat): (r: Res<(nat, bool)>)
    requires Shaped(prog, indents) && base < |prog| && cur <= |prog|
    decreases |prog| - cur
    ensures r.Ok? ==> cur <= r.value.0 < |prog|
  {
    if cur == |prog| then Fail(SyntaxError)
    else if Closes(prog, indents, base, cur, EndIfKw) then Ok((cur, false))
    else if Closes(prog, indents, base, cur, ElseKw) then Ok((cur, true))
    else IfTarget(prog, indents, base, cur + 1)
  }

  /** Line `k` closes neither branch of the `if` at `base`. */
  predicate PassesIf(prog: seq<seq<Token>>, indents: seq<int>, base: nat, k: nat)
    requires Shaped(prog, indents) && base < |prog| && k < |prog|
  {
    !Closes(prog, indents, base, k, EndIfKw) && !Closes(prog, indents, base, k, ElseKw)
  }

  /** The target of a false `if` is its first `else` or `endif`, every line
      before it passed over; with neither, the scan fails with a syntax
      error and never raises. */
  lemma {:induction false} IfTargetFinds(prog: seq<seq<Token>>, indents: seq<int>, base: nat, cur: nat)
    requires Shaped(prog, indents) && base < |prog| && cur <= |prog|
    ensures var r := IfTarget(prog, indents, base, cur);
            r.Ok? ==> (r.value.1 ==> Closes(prog, indents, base, r.value.0, ElseKw)) &&
                      (!r.value.1 ==> Closes(prog, indents, base, r.value.0, EndIfKw)) &&
                      forall k :: cur <= k < r.value.0 ==> PassesIf(prog, indents, base, k)
    ensures var r := IfTarget(prog, indents, base, cur);
            !r.Ok? ==> r == Fail(SyntaxError) && forall k :: cur <= k < |prog| ==> PassesIf(prog, indents, base, k)
    decreases |prog| - cur
  {
    if cur < |prog| && PassesIf(prog, indents, base, cur) {
      assert IfTarget(prog, indents, base, cur) == IfTarget(prog, indents, base, cur + 1);
      IfTargetFinds(prog, indents, base, cur + 1);
    }
  }

  method FindIfTarget(prog: seq<seq<Token>>, indents: seq<int>, ip: nat) returns (r: Res<(nat, bool)>)
    requires Shaped(prog, indents) && ip < |prog|
    ensures r == IfTarget(prog, indents, ip, ip + 1)
  {
    var line := ip + 1;
    while line < |prog|
      invariant ip + 1 <= line <= |prog|
      invariant IfTarget(prog, indents, ip, ip + 1) == IfTarget(prog, indents, ip, line)
      decreases |prog| - line
    {
      var tokens := prog[line];
      if |tokens| > 0 {
        if Closes(prog, indents, ip, line, EndIfKw) {
          return Ok((line, false));
        }
        if Closes(prog, indents, ip, line, ElseKw) {
          return Ok((line, true));
        }
      }
      line := line + 1;
    }
    return Fail(SyntaxError);
  }

  /** First line from `cur` that is the `endif` of the `else` at `base`. */
  function EndIfTarget(prog: seq<seq<Token>>, indents: seq<int>, base: nat, cur: nat): (r: Res<nat>)
    requires Shaped(prog, indents) && base < |prog| && cur <= |prog|
    decreases |prog| - cur
    ensures r.Ok? ==> cur <= r.value < |prog|
  {
    if cur == |prog| then Fail(SyntaxError)
    else if Closes(prog, indents, base, cur, EndIfKw) then Ok(cur)
    else EndIfTarget(prog, indents, base, cur + 1)
  }

  /** The `else` continues after its first `endif`, every line before it
      passed over; with none, the scan fails with a syntax error. */
  lemma {:induction false} EndIfTargetFinds(prog: seq<seq<Token>>, indents: seq<int>, base: nat, cur: nat)
    requires Shaped(prog, indents) && base < |prog| && cur <= |prog|
    ensures var r := EndIfTarget(prog, indents, base, cur);
            r.Ok? ==> Closes(prog, indents, base, r.value, EndIfKw) &&
                      forall k :: cur <= k < r.value ==> !Closes(prog, indents, base, k, EndIfKw)
    ensures var r := EndIfTarget(prog, indents, base, cur);
            !r.Ok? ==> r == Fail(SyntaxError) &&
                       forall k :: cur <= k < |prog| ==> !Closes(prog, indents, base, k, EndIfKw)
    decreases |prog| - cur
  {
    if cur < |prog| && !Closes(prog, indents, base, cur, EndIfKw) {
      assert EndIfTarget(prog, indents, base, cur) == EndIfTarget(prog, indents, base, cur + 1);
      EndIfTargetFinds(prog, indents, base, cur + 1);
    }
  }

  method FindEndIf(prog: seq<seq<Token>>, indents: seq<int>, ip: nat) returns (r: Res<nat>)
    requires Shaped(prog, indents) && ip < |prog|
    ensures r == EndIfTarget(prog, indents, ip, ip + 1)
  {
    var line := ip + 1;
    while line < |prog|
      invariant ip + 1 <= line <= |prog|
      invariant EndIfTarget(prog, indents, ip, ip + 1) == EndIfTarget(prog, indents, ip, line)
      decreases |prog| - line
    {
      var tokens := prog[line];
      if |tokens| > 0 && Closes(prog, indents, ip, line, EndIfKw) {
        return Ok(line);
      }
      line := line + 1;
    }
    return Fail(SyntaxError);
  }

  // ---------------------------------------------------------------------
  // `_exit_while`, `_exit_lambda` and `_endwhile`: the scan also stops with
  // a syntax error at the first line indented less than the opener. As
  // written the scans read the head of every line, so a blank line raises;
  // with `skipBlanks` a blank line is passed over like in `_if`.

  /** Line `k` neither ends the scan for `kw` from `base` nor makes it fail. */
  predicate Passes(prog: seq<seq<Token>>, indents: seq<int>, base: nat, k: nat, kw: Keyword, skipBlanks: bool)
    requires Shaped(prog, indents) && base < |prog| && k < |prog|
  {
    if |prog[k]| == 0 then skipBlanks
    else !Closes(prog, indents, base, k, kw) && indents[k] >= indents[base]
  }

  /** Line `k` is non-blank, not the terminator, and indented less than the
      opener. */
  predicate Dedent(prog: seq<seq<Token>>, indents: seq<int>, base: nat, k: nat, kw: Keyword)
    requires Shaped(prog, indents) && base < |prog| && k < |prog|
  {
    |prog[k]| > 0 && !Closes(prog, indents, base, k, kw) && indents[k] < indents[base]
  }

  /** Forward scan from `cur` for the terminator `kw` of the block opened at
      `base`. */
  function ForwardScan(prog: seq<seq<Token>>, indents: seq<int>, base: nat, kw: Keyword,
                       cur: nat, skipBlanks: bool): (r: Res<nat>)
    requires Shaped(prog, indents) && base < |prog| && cur <= |prog|
    decreases |prog| - cur
    ensures r.Ok? ==> cur <= r.value < |prog|
  {
    if cur == |prog| then Fail(SyntaxError)
    else if |prog[cur]| == 0 then
      if skipBlanks then ForwardScan(prog, indents, base, kw, cur + 1, skipBlanks) else Crash
    else if Closes(prog, indents, base, cur, kw) then Ok(cur)
    else if indents[cur] < indents[base] then Fail(SyntaxError)
    else ForwardScan(prog, indents, base, kw, cur + 1, skipBlanks)
  }

  /** Every line from `cur` up to `j` passes (see `Passes`). */
  predicate PassedOver(prog: seq<seq<Token>>, indents: seq<int>, base: nat, kw: Keyword,
                       cur: nat, j: nat, skipBlanks: bool)
    requires Shaped(prog, indents) && base < |prog| && cur <= j <= |prog|
  {
    forall k :: cur <= k < j ==> Passes(prog, indents, base, k, kw, skipBlanks)
  }

  /** A passing line extends a passed-over stretch backwards. */
  lemma PassedOverExtend(prog: seq<seq<Token>>, indents: seq<int>, base: nat, kw: Keyword,
                         cur: nat, j: nat, skipBlanks: bool)
    requires Shaped(prog, indents) && base < |prog| && cur < j <= |prog|
    requires Passes(prog, indents, base, cur, kw, skipBlanks)
    requires PassedOver(prog, indents, base, kw, cur + 1, j, skipBlanks)
    ensures PassedOver(prog, indents, base, kw, cur, j, skipBlanks)
  {
    forall k | cur <= k < j
      ensures Passes(prog, indents, base, k, kw, skipBlanks)
    {
      if k > cur {
        assert cur + 1 <= k < j;
      }
    }
  }

  /** The forward scan finds the first line that closes the block, with
      every line before it passed over; it fails with a syntax error when
      the program ends or a line dedents first, and it raises only as
      written, at a blank line that comes first. */
  lemma {:induction false} ForwardScanFinds(prog: seq<seq<Token>>, indents: seq<int>, base: nat, kw: Keyword,
                                            cur: nat, skipBlanks: bool)
    requires Shaped(prog, indents) && base < |prog| && cur <= |prog|
    ensures var r := ForwardScan(prog, indents, base, kw, cur, skipBlanks);
            r.Ok? ==> Closes(prog, indents, base, r.value, kw) &&
                      PassedOver(prog, indents, base, kw, cur, r.value, skipBlanks)
    ensures var r := ForwardScan(prog, indents, base, kw, cur, skipBlanks);
            r.Crash? ==> !skipBlanks &&
                         exists j :: cur <= j < |prog| && |prog[j]| == 0 &&
                                     PassedOver(prog, indents, base, kw, cur, j, skipBlanks)
    ensures var r := ForwardScan(prog, indents, base, kw, cur, skipBlanks);
            r.Fail? ==> r.err == SyntaxError &&
                        (PassedOver(prog, indents, base, kw, cur, |prog|, skipBlanks) ||
                         exists j :: cur <= j < |prog| && Dedent(prog, indents, base, j, kw) &&
                                     PassedOver(prog, indents, base, kw, cur, j, skipBlanks))
  {
    ForwardScanFound(prog, indents, base, kw, cur, skipBlanks);
    ForwardScanBlank(prog, indents, base, kw, cur, skipBlanks);
    ForwardScanStops(prog, indents, base, kw, cur, skipBlanks);
  }

  /** What the forward scan from `cur` finds closes the block, every line
      before it passed over. */
  predicate ForwardFound(prog: seq<seq<Token>>, indents: seq<int>, base: nat, kw: Keyword,
                         cur: nat, skipBlanks: bool)
    requires Shaped(prog, indents) && base < |prog| && cur <= |prog|
  {
    var r := ForwardScan(prog, indents, base, kw, cur, skipBlanks);
    r.Ok? ==> Closes(prog, indents, base, r.value, kw) &&
              PassedOver(prog, indents, base, kw, cur, r.value, skipBlanks)
  }

  /** One line of `ForwardScanFound`. */
  lemma ForwardFoundStep(prog: seq<seq<Token>>, indents: seq<int>, base: nat, kw: Keyword,
                         cur: nat, skipBlanks: bool)
    requires Shaped(prog, indents) && base < |prog| && cur < |prog|
    requires ForwardFound(prog, indents, base, kw, cur + 1, skipBlanks)
    ensures ForwardFound(prog, indents, base, kw, cur, skipBlanks)
  {
    var r := ForwardScan(prog, indents, base, kw, cur, skipBlanks);
    if Passes(prog, indents, base, cur, kw, skipBlanks) {
      assert r == ForwardScan(prog, indents, base, kw, cur + 1, skipBlanks);
      if r.Ok? {
        PassedOverExtend(prog, indents, base, kw, cur, r.value, skipBlanks);
      }
    } else if r.Ok? {
      assert PassedOver(prog, indents, base, kw, cur, cur, skipBlanks);
    }
  }

  lemma {:induction false} ForwardScanFound(prog: seq<seq<Token>>, indents: seq<int>, base: nat, kw: Keyword,
                                            cur: nat, skipBlanks: bool)
    requires Shaped(prog, indents) && base < |prog| && cur <= |prog|
    ensures ForwardFound(prog, indents, base, kw, cur, skipBlanks)
    decreases |prog| - cur
  {
    if cur < |prog| {
      ForwardScanFound(prog, indents, base, kw, cur + 1, skipBlanks);
      ForwardFoundStep(prog, indents, base, kw, cur, skipBlanks);
    }
  }

  /** A raise of the forward scan from `cur` is at a blank line that comes
      first, and only as written. */
  predicate ForwardBlank(prog: seq<seq<Token>>, indents: seq<int>, base: nat, kw: Keyword,
                         cur: nat, skipBlanks: bool)
    requires Shaped(prog, indents) && base < |prog| && cur <= |prog|
  {
    ForwardScan(prog, indents, base, kw, cur, skipBlanks).Crash? ==>
      !skipBlanks &&
      exists j :: cur <= j < |prog| && |prog[j]| == 0 &&
                  PassedOver(prog, indents, base, kw, cur, j, skipBlanks)
  }

  /** One line of `ForwardScanBlank`. */
  lemma ForwardBlankStep(prog: seq<seq<Token>>, indents: seq<int>, base: nat, kw: Keyword,
                         cur: nat, skipBlanks: bool)
    requires Shaped(prog, indents) && base < |prog| && cur < |prog|
    requires ForwardBlank(prog, indents, base, kw, cur + 1, skipBlanks)
    ensures ForwardBlank(prog, indents, base, kw, cur, skipBlanks)
  {
    if Passes(prog, indents, base, cur, kw, skipBlanks) {
      var next := ForwardScan(prog, indents, base, kw, cur + 1, skipBlanks);
      assert ForwardScan(prog, indents, base, kw, cur, skipBlanks) == next;
      if next.Crash? {
        var j :| cur + 1 <= j < |prog| && |prog[j]| == 0 &&
                 PassedOver(prog, indents, base, kw, cur + 1, j, skipBlanks);
        PassedOverExtend(prog, indents, base, kw, cur, j, skipBlanks);
      }
    } else if |prog[cur]| == 0 {
      assert PassedOver(prog, indents, base, kw, cur, cur, skipBlanks);
    }
  }

  lemma {:induction false} ForwardScanBlank(prog: seq<seq<Token>>, indents: seq<int>, base: nat, kw: Keyword,
                                            cur: nat, skipBlanks: bool)
    requires Shaped(prog, indents) && base < |prog| && cur <= |prog|
    ensures ForwardBlank(prog, indents, base, kw, cur, skipBlanks)
    decreases |prog| - cur
  {
    if cur < |prog| {
      ForwardScanBlank(prog, indents, base, kw, cur + 1, skipBlanks);
      ForwardBlankStep(prog, indents, base, kw, cur, skipBlanks);
    }
  }

  lemma {:induction false} ForwardScanStops(prog: seq<seq<Token>>, indents: seq<int>, base: nat, kw: Keyword,
                                            cur: nat, skipBlanks: bool)
    requires Shaped(prog, indents) && base < |prog| && cur <= |prog|
    ensures var r := ForwardScan(prog, indents, base, kw, cur, skipBlanks);
            r.Fail? ==> r.err == SyntaxError &&
                        (PassedOver(prog, indents, base, kw, cur, |prog|, skipBlanks) ||
                         exists j :: cur <= j < |prog| && Dedent(prog, indents, base, j, kw) &&
                                     PassedOver(prog, indents, base, kw, cur, j, skipBlanks))
    decreases |prog| - cur
  {
    if cur < |prog| && Passes(prog, indents, base, cur, kw, skipBlanks) {
      var next := ForwardScan(prog, indents, base, kw, cur + 1, skipBlanks);
      assert ForwardScan(prog, indents, base, kw, cur, skipBlanks) == next;
      ForwardScanStops(prog, indents, base, kw, cur + 1, skipBlanks);
      if next.Fail? {
        if PassedOver(prog, indents, base, kw, cur + 1, |prog|, skipBlanks) {
          PassedOverExtend(prog, indents, base, kw, cur, |prog|, skipBlanks);
        } else {
          var j :| cur + 1 <= j < |prog| && Dedent(prog, indents, base, j, kw) &&
                   PassedOver(prog, indents, base, kw, cur + 1, j, skipBlanks);
          PassedOverExtend(prog, indents, base, kw, cur, j, skipBlanks);
        }
      }
    } else if cur < |prog| && |prog[cur]| > 0 && !Closes(prog, indents, base, cur, kw) {
      assert Dedent(prog, indents, base, cur, kw) && PassedOver(prog, indents, base, kw, cur, cur, skipBlanks);
    } else if cur == |prog| {
      assert PassedOver(prog, indents, base, kw, cur, |prog|, skipBlanks);
    }
  }

  /** The loop of `_exit_while` (terminator `endwhile`) and `_exit_lambda`
      (terminator `endlambda`): as written when `skipBlanks` is false (the
      head of a blank line raises), corrected when it is true. */
  method ScanForward(prog: seq<seq<Token>>, indents: seq<int>, ip: nat, kw: Keyword, skipBlanks: bool)
    returns (r: Res<nat>)
    requires Shaped(prog, indents) && ip < |prog|
    ensures r == ForwardScan(prog, indents, ip, kw, ip + 1, skipBlanks)
  {
    var line := ip + 1;
    while line < |prog|
      invariant ip + 1 <= line <= |prog|
      invariant ForwardScan(prog, indents, ip, kw, ip + 1, skipBlanks) == ForwardScan(prog, indents, ip, kw, line, skipBlanks)
      decreases |prog| - line
    {
      var tokens := prog[line];
      if |tokens| == 0 {
        if !skipBlanks {
          return Crash;
        }
      } else {
        if Closes(prog, indents, ip, line, kw) {
          return Ok(line);
        }
        if indents[line] < indents[ip] {
          break;
        }
      }
      line := line + 1;
    }
    return Fail(SyntaxError);
  }

  /** Backward scan from `cur` down to the first line for the `while` that
      the `endwhile` at `base` closes. */
  function BackwardScan(prog: seq<seq<Token>>, indents: seq<int>, base: nat, cur: int,
                        skipBlanks: bool): (r: Res<nat>)
    requires Shaped(prog, indents) && base < |prog| && -1 <= cur < |prog|
    decreases cur + 1
    ensures r.Ok? ==> r.value <= cur
  {
    if cur < 0 then Fail(SyntaxError)
    else if |prog[cur]| == 0 then
      if skipBlanks then BackwardScan(prog, indents, base, cur - 1, skipBlanks) else Crash
    else if Closes(prog, indents, base, cur, WhileKw) then Ok(cur)
    else if indents[cur] < indents[base] then Fail(SyntaxError)
    else BackwardScan(prog, indents, base, cur - 1, skipBlanks)
  }

  /** The backward scan finds the nearest line above that opens the loop,
      with every line between passed over; it fails with a syntax error at
      the top of the program or at a line that dedents first, and it raises
      only as written, at a blank line that comes first. */
  lemma {:induction false} BackwardScanFinds(prog: seq<seq<Token>>, indents: seq<int>, base: nat, cur: int,
                                             skipBlanks: bool)
    requires Shaped(prog, indents) && base < |prog| && -1 <= cur < |prog|
    ensures var r := BackwardScan(prog, indents, base, cur, skipBlanks);
            r.Ok? ==> Closes(prog, indents, base, r.value, WhileKw) &&
                      forall k :: r.value < k <= cur ==> Passes(prog, indents, base, k, WhileKw, skipBlanks)
    ensures var r := BackwardScan(prog, indents, base, cur, skipBlanks);
            r.Crash? ==> !skipBlanks &&
                         exists j :: 0 <= j <= cur && |prog[j]| == 0 &&
                                     forall k :: j < k <= cur ==> Passes(prog, indents, base, k, WhileKw, skipBlanks)
    ensures var r := BackwardScan(prog, indents, base, cur, skipBlanks);
            r.Fail? ==> r.err == SyntaxError &&
                        ((forall k :: 0 <= k <= cur ==> Passes(prog, indents, base, k, WhileKw, skipBlanks)) ||
                         exists j :: 0 <= j <= cur && Dedent(prog, indents, base, j, WhileKw) &&
                                     forall k :: j < k <= cur ==> Passes(prog, indents, base, k, WhileKw, skipBlanks))
  {
    BackwardScanFound(prog, indents, base, cur, skipBlanks);
    BackwardScanBlank(prog, indents, base, cur, skipBlanks);
    BackwardScanStops(prog, indents, base, cur, skipBlanks);
  }

  lemma {:induction false} BackwardScanFound(prog: seq<seq<Token>>, indents: seq<int>, base: nat, cur: int,
                                             skipBlanks: bool)
    requires Shaped(prog, indents) && base < |prog| && -1 <= cur < |prog|
    ensures var r := BackwardScan(prog, indents, base, cur, skipBlanks);
            r.Ok? ==> Closes(prog, indents, base, r.value, WhileKw) &&
                      forall k :: r.value < k <= cur ==> Passes(prog, indents, base, k, WhileKw, skipBlanks)
    decreases cur + 1
  {
    if cur >= 0 && Passes(prog, indents, base, cur, WhileKw, skipBlanks) {
      assert BackwardScan(prog, indents, base, cur, skipBlanks) == BackwardScan(prog, indents, base, cur - 1, skipBlanks);
      BackwardScanFound(prog, indents, base, cur - 1, skipBlanks);
    }
  }

  lemma {:induction false} BackwardScanBlank(prog: seq<seq<Token>>, indents: seq<int>, base: nat, cur: int,
                                             skipBlanks: bool)
    requires Shaped(prog, indents) && base < |prog| && -1 <= cur < |prog|
    ensures var r := BackwardScan(prog, indents, base, cur, skipBlanks);
            r.Crash? ==> !skipBlanks &&
                         exists j :: 0 <= j <= cur && |prog[j]| == 0 &&
                                     forall k :: j < k <= cur ==> Passes(prog, indents, base, k, WhileKw, skipBlanks)
    decreases cur + 1
  {
    if cur >= 0 && Passes(prog, indents, base, cur, WhileKw, skipBlanks) {
      var next := BackwardScan(prog, indents, base, cur - 1, skipBlanks);
      assert BackwardScan(prog, indents, base, cur, skipBlanks) == next;
      BackwardScanBlank(prog, indents, base, cur - 1, skipBlanks);
      if next.Crash? {
        var j :| 0 <= j <= cur - 1 && |prog[j]| == 0 &&
                 forall k :: j < k <= cur - 1 ==> Passes(prog, indents, base, k, WhileKw, skipBlanks);
        assert forall k :: j < k <= cur ==> Passes(prog, indents, base, k, WhileKw, skipBlanks);
      }
    }
  }

  lemma {:induction false} BackwardScanStops(prog: seq<seq<Token>>, indents: seq<int>, base: nat, cur: int,
                                             skipBlanks: bool)
    requires Shaped(prog, indents) && base < |prog| && -1 <= cur < |prog|
    ensures var r := BackwardScan(prog, indents, base, cur, skipBlanks);
            r.Fail? ==> r.err == SyntaxError &&
                        ((forall k :: 0 <= k <= cur ==> Passes(prog, indents, base, k, WhileKw, skipBlanks)) ||
                         exists j :: 0 <= j <= cur && Dedent(prog, indents, base, j, WhileKw) &&
                                     forall k :: j < k <= cur ==> Passes(prog, indents, base, k, WhileKw, skipBlanks))
    decreases cur + 1
  {
    if cur >= 0 && Passes(prog, indents, base, cur, WhileKw, skipBlanks) {
      var next := BackwardScan(prog, indents, base, cur - 1, skipBlanks);
      assert BackwardScan(prog, indents, base, cur, skipBlanks) == next;
      BackwardScanStops(prog, indents, base, cur - 1, skipBlanks);
      if next.Fail? && !forall k :: 0 <= k <= cur - 1 ==> Passes(prog, indents, base, k, WhileKw, skipBlanks) {
        var j :| 0 <= j <= cur - 1 && Dedent(prog, indents, base, j, WhileKw) &&
                 forall k :: j < k <= cur - 1 ==> Passes(prog, indents, base, k, WhileKw, skipBlanks);
        assert forall k :: j < k <= cur ==> Passes(prog, indents, base, k, WhileKw, skipBlanks);
      }
    } else if cur >= 0 && |prog[cur]| > 0 && !Closes(prog, indents, base, cur, WhileKw) {
      assert Dedent(prog, indents, base, cur, WhileKw);
    }
  }

  /** The loop of `_endwhile`: as written when `skipBlanks` is false,
      corrected when it is true. */
  method ScanBackward(prog: seq<seq<Token>>, indents: seq<int>, ip: nat, skipBlanks: bool) returns (r: Res<nat>)
    requires Shaped(prog, indents) && ip < |prog|
    ensures r == BackwardScan(prog, indents, ip, ip - 1, skipBlanks)
  {
    var line: int := ip - 1;
    while line >= 0
      invariant -1 <= line < ip
      invariant BackwardScan(prog, indents, ip, ip - 1, skipBlanks) == BackwardScan(prog, indents, ip, line, skipBlanks)
      decreases line + 1
    {
      var tokens := prog[line];
      if |tokens| == 0 {
        if !skipBlanks {
          return Crash;
        }
      } else {
        if Closes(prog, indents, ip, line, WhileKw) {
          return Ok(line);
        }
        if indents[line] < indents[ip] {
          break;
        }
      }
      line := line - 1;
    }
    return Fail(SyntaxError);
  }

  // ---------------------------------------------------------------------
  // `_lambda_or_func`: the first `endfunc` or `endlambda` after a `return`
  // decides how the return unwinds, whatever its indentation. Running off
  // the end of the program is the failed `assert`.

  predicate Unwinds(line: seq<Token>)
  {
    HeadIs(line, EndFuncKw) || HeadIs(line, EndLambdaKw)
  }

  /** The body end found from `cur`: `true` for `endfunc`, `false` for
      `endlambda`. */
  function ReturnTarget(prog: seq<seq<Token>>, cur: nat, skipBlanks: bool): (r: Res<bool>)
    requires cur <= |prog|
    decreases |prog| - cur
    ensures !r.Fail?
  {
    if cur == |prog| then Crash
    else if |prog[cur]| == 0 then
      if skipBlanks then ReturnTarget(prog, cur + 1, skipBlanks) else Crash
    else if HeadIs(prog[cur], EndFuncKw) then Ok(true)
    else if HeadIs(prog[cur], EndLambdaKw) then Ok(false)
    else ReturnTarget(prog, cur + 1, skipBlanks)
  }

  /** The scan stops at the first `endfunc` or `endlambda` from `cur` and
      tells which it is; it raises when there is none, or, as written, when
      a blank line comes first. */
  lemma {:induction false} ReturnTargetFinds(prog: seq<seq<Token>>, cur: nat, skipBlanks: bool)
    requires cur <= |prog|
    ensures var r := ReturnTarget(prog, cur, skipBlanks);
            r.Ok? ==> exists j :: cur <= j < |prog| && HeadIs(prog[j], if r.value then EndFuncKw else EndLambdaKw) &&
                                  ClearUpTo(prog, cur, j, skipBlanks)
    ensures var r := ReturnTarget(prog, cur, skipBlanks);
            r.Crash? ==> (forall k :: cur <= k < |prog| ==> !Unwinds(prog[k])) ||
                         (!skipBlanks && exists j :: cur <= j < |prog| && |prog[j]| == 0 &&
                                                     forall k :: cur <= k < j ==> !Unwinds(prog[k]))
  {
    ReturnTargetFound(prog, cur, skipBlanks);
    ReturnTargetMissing(prog, cur, skipBlanks);
  }

  /** No line from `cur` up to `j` ends a body, and, unless blank lines
      are skipped, none of them is blank. */
  ghost predicate ClearUpTo(prog: seq<seq<Token>>, cur: nat, j: nat, skipBlanks: bool)
    requires cur <= j <= |prog|
  {
    forall k :: cur <= k < j ==> !Unwinds(prog[k]) && (skipBlanks || |prog[k]| > 0)
  }

  /** A line that neither ends a body nor, unless blanks are skipped, is
      blank extends a clear stretch backwards. */
  lemma ClearUpToExtend(prog: seq<seq<Token>>, cur: nat, j: nat, skipBlanks: bool)
    requires cur < j <= |prog| && ClearUpTo(prog, cur + 1, j, skipBlanks)
    requires !Unwinds(prog[cur]) && (skipBlanks || |prog[cur]| > 0)
    ensures ClearUpTo(prog, cur, j, skipBlanks)
  {
    forall k | cur <= k < j
      ensures !Unwinds(prog[k]) && (skipBlanks || |prog[k]| > 0)
    {
      if k > cur {
        assert cur + 1 <= k < j;
      }
    }
  }

  /** The target found from `cur`, if any, is a closing line of its kind
      with a clear stretch before it. */
  ghost predicate FoundFrom(prog: seq<seq<Token>>, cur: nat, skipBlanks: bool)
    requires cur <= |prog|
  {
    var r := ReturnTarget(prog, cur, skipBlanks);
    r.Ok? ==> exists j :: cur <= j < |prog| && HeadIs(prog[j], if r.value then EndFuncKw else EndLambdaKw) &&
                          ClearUpTo(prog, cur, j, skipBlanks)
  }

  /** One line of `ReturnTargetFound`: what holds from `cur + 1` holds from
      `cur`. */
  lemma ReturnTargetFoundStep(prog: seq<seq<Token>>, cur: nat, skipBlanks: bool)
    requires cur < |prog| && FoundFrom(prog, cur + 1, skipBlanks)
    ensures FoundFrom(prog, cur, skipBlanks)
  {
    var r := ReturnTarget(prog, cur, skipBlanks);
    if r.Ok? {
      if |prog[cur]| > 0 && Unwinds(prog[cur]) {
        assert HeadIs(prog[cur], if r.value then EndFuncKw else EndLambdaKw) && ClearUpTo(prog, cur, cur, skipBlanks);
      } else {
        assert r == ReturnTarget(prog, cur + 1, skipBlanks);
        var j :| cur + 1 <= j < |prog| && HeadIs(prog[j], if r.value then EndFuncKw else EndLambdaKw) &&
                 ClearUpTo(prog, cur + 1, j, skipBlanks);
        ClearUpToExtend(prog, cur, j, skipBlanks);
      }
    }
  }

  /** A target found is the first closing line from `cur`. */
  lemma {:induction false} ReturnTargetFound(prog: seq<seq<Token>>, cur: nat, skipBlanks: bool)
    requires cur <= |prog|
    ensures FoundFrom(prog, cur, skipBlanks)
    decreases |prog| - cur
  {
    if cur < |prog| {
      ReturnTargetFound(prog, cur + 1, skipBlanks);
      ReturnTargetFoundStep(prog, cur, skipBlanks);
    }
  }

  /** A crash means that no closing line follows `cur`, or, when blank
      lines are not skipped, that a blank line comes before the first. */
  lemma {:induction false} ReturnTargetMissing(prog: seq<seq<Token>>, cur: nat, skipBlanks: bool)
    requires cur <= |prog|
    ensures var r := ReturnTarget(prog, cur, skipBlanks);
            r.Crash? ==> (forall k :: cur <= k < |prog| ==> !Unwinds(prog[k])) ||
                         (!skipBlanks && exists j :: cur <= j < |prog| && |prog[j]| == 0 &&
                                                     forall k :: cur <= k < j ==> !Unwinds(prog[k]))
    decreases |prog| - cur
  {
    if cur < |prog| && ReturnTarget(prog, cur, skipBlanks).Crash? {
      // A blank line at `cur` when blanks are not skipped is its own witness.
      if |prog[cur]| > 0 || skipBlanks {
        assert ReturnTarget(prog, cur, skipBlanks) == ReturnTarget(prog, cur + 1, skipBlanks);
        ReturnTargetMissing(prog, cur + 1, skipBlanks);
        if !skipBlanks && exists j :: cur + 1 <= j < |prog| && |prog[j]| == 0 &&
                                      forall k :: cur + 1 <= k < j ==> !Unwinds(prog[k]) {
          var j :| cur + 1 <= j < |prog| && |prog[j]| == 0 && forall k :: cur + 1 <= k < j ==> !Unwinds(prog[k]);
          assert forall k :: cur <= k < j ==> !Unwinds(prog[k]);
        }
      }
    }
  }

  /** The loop of `_lambda_or_func`: as written when `skipBlanks` is
      false, corrected when it is true. */
  method FindReturnTarget(prog: seq<seq<Token>>, ip: nat, skipBlanks: bool) returns (r: Res<bool>)
    requires ip < |prog|
    ensures r == ReturnTarget(prog, ip + 1, skipBlanks)
  {
    var line := ip + 1;
    while line < |prog|
      invariant ip + 1 <= line <= |prog|
      invariant ReturnTarget(prog, ip + 1, skipBlanks) == ReturnTarget(prog, line, skipBlanks)
      decreases |prog| - line
    {
      var tokens := prog[line];
      if |tokens| == 0 {
        if !skipBlanks {
          return Crash;
        }
      } else {
        if HeadIs(tokens, EndFuncKw) {
          return Ok(true);
        }
        if HeadIs(tokens, EndLambdaKw) {
          return Ok(false);
        }
      }
      line := line + 1;
    }
    return Crash;
  }

  // ---------------------------------------------------------------------
  // Blank lines. As written, `_exit_while`, `_exit_lambda`, `_endwhile`
  // and `_lambda_or_func` read the head of every line they pass, so a blank
  // line in the scanned range raises (`skipBlanks == false`); their own
  // dedent test and the scans of `_if` and `_else` treat blank lines as
  // nothing. The scans with blank lines skipped never raise and agree with
  // the as-written scans wherever those do not raise.

  /** A `while` whose body is a blank line: lines 0..2 are `while c`, a blank
      line and `endwhile`, all at indentation 0. */
  const BlankBody: seq<seq<Token>> := [[Kw(WhileKw), Word("c")], [], [Kw(EndWhileKw)]]
  const BlankBodyIndents: seq<int> := [0, 0, 0]

  /** `_exit_while` on the `while` of `BlankBody` raises as written, and
      finds the `endwhile` with the blank line skipped. */
  lemma ExitWhileBlankLine()
    ensures ForwardScan(BlankBody, BlankBodyIndents, 0, EndWhileKw, 1, false) == Crash
    ensures ForwardScan(BlankBody, BlankBodyIndents, 0, EndWhileKw, 1, true) == Ok(2)
  {
    assert Closes(BlankBody, BlankBodyIndents, 0, 2, EndWhileKw);
  }

  /** A lambda whose body is a blank line. */
  const BlankLambda: seq<seq<Token>> := [[Kw(LambdaKw), Ty(IntT)], [], [Kw(EndLambdaKw)]]

  /** `_exit_lambda` on the header of `BlankLambda` raises as written, and
      finds the `endlambda` with the blank line skipped. */
  lemma ExitLambdaBlankLine()
    ensures ForwardScan(BlankLambda, BlankBodyIndents, 0, EndLambdaKw, 1, false) == Crash
    ensures ForwardScan(BlankLambda, BlankBodyIndents, 0, EndLambdaKw, 1, true) == Ok(2)
  {
    assert Closes(BlankLambda, BlankBodyIndents, 0, 2, EndLambdaKw);
  }

  /** `_endwhile` on the `endwhile` of `BlankBody` raises as written, and
      finds the `while` with the blank line skipped. */
  lemma EndWhileBlankLine()
    ensures BackwardScan(BlankBody, BlankBodyIndents, 2, 1, false) == Crash
    ensures BackwardScan(BlankBody, BlankBodyIndents, 2, 1, true) == Ok(0)
  {
    assert Closes(BlankBody, BlankBodyIndents, 2, 0, WhileKw);
  }

  /** A `return` followed by a blank line and the `endfunc`. */
  const BlankAfterReturn: seq<seq<Token>> := [[Kw(ReturnKw)], [], [Kw(EndFuncKw)]]

  /** `_lambda_or_func` after the `return` of `BlankAfterReturn` raises as
      written, and finds the `endfunc` with the blank line skipped. */
  lemma ReturnBlankLine()
    ensures ReturnTarget(BlankAfterReturn, 1, false) == Crash
    ensures ReturnTarget(BlankAfterReturn, 1, true) == Ok(true)
  {
    assert HeadIs(BlankAfterReturn[2], EndFuncKw);
  }

  /** Skipping blank lines only changes the forward scan where the
      as-written scan raises. */
  lemma {:induction false} ForwardScanSkipsBlanks(prog: seq<seq<Token>>, indents: seq<int>, base: nat, kw: Keyword, cur: nat)
    requires Shaped(prog, indents) && base < |prog| && cur <= |prog|
    requires !ForwardScan(prog, indents, base, kw, cur, false).Crash?
    ensures ForwardScan(prog, indents, base, kw, cur, true) == ForwardScan(prog, indents, base, kw, cur, false)
    decreases |prog| - cur
  {
    if cur < |prog| && |prog[cur]| > 0 && !Closes(prog, indents, base, cur, kw) && indents[cur] >= indents[base] {
      ForwardScanSkipsBlanks(prog, indents, base, kw, cur + 1);
    }
  }

  /** Skipping blank lines only changes the backward scan where the
      as-written scan raises. */
  lemma {:induction false} BackwardScanSkipsBlanks(prog: seq<seq<Token>>, indents: seq<int>, base: nat, cur: int)
    requires Shaped(prog, indents) && base < |prog| && -1 <= cur < |prog|
    requires !BackwardScan(prog, indents, base, cur, false).Crash?
    ensures BackwardScan(prog, indents, base, cur, true) == BackwardScan(prog, indents, base, cur, false)
    decreases cur + 1
  {
    if cur >= 0 && |prog[cur]| > 0 && !Closes(prog, indents, base, cur, WhileKw) && indents[cur] >= indents[base] {
      BackwardScanSkipsBlanks(prog, indents, base, cur - 1);
    }
  }

  /** Skipping blank lines only changes which body end a `return` finds
      where the as-written scan raises. */
  lemma {:induction false} ReturnTargetSkipsBlanks(prog: seq<seq<Token>>, cur: nat)
    requires cur <= |prog|
    requires !ReturnTarget(prog, cur, false).Crash?
    ensures ReturnTarget(prog, cur, true) == ReturnTarget(prog, cur, false)
    decreases |prog| - cur
  {
    if cur == |prog| {
    } else if |prog[cur]| == 0 {
    } else if Unwinds(prog[cur]) {
    } else {
      ReturnTargetSkipsBlanks(prog, cur + 1);
    }
  }
}
