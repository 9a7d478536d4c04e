/** The scanning steps of the parser of src/json.c, for any text. */
module JsonScan {
  import opened Options
  import opened Decimal
  import opened JsonText
  import opened JsonGrammar

  /** TRIM_SPACE. */
  method TrimSpace(s: string, i: nat) returns (j: nat)
    ensures j == Skip(s, i)
  {
    j := i;
    while IsSpace(At(s, j))
      invariant i <= j && Skip(s, j) == Skip(s, i)
      decreases |s| - j
    {
      j := j + 1;
    }
  }

  /** `_step_string`. */
  method StepString(s: string, i: nat) returns (j: nat)
    ensures j == StringEnd(s, i)
  {
    j := i;
    while true
      invariant StringEnd(s, j) == StringEnd(s, i)
      decreases |s| - j
    {
      if At(s, j) == '\\' {
        j := j + 2;
      } else if At(s, j) == '"' || At(s, j) == '\0' {
        return;
      } else {
        j := j + 1;
      }
    }
  }

  /** `_step_number`: over digits and points, as far as they go. */
  method StepNumber(s: string, i: nat) returns (j: nat, isDouble: bool)
    ensures (j, isDouble) == Number(s, i)
  {
    isDouble := false;
    j := i;
    if At(s, j) == '-' { j := j + 1; }
    while true
      invariant NumberTail(s, j, isDouble) == Number(s, i)
      decreases |s| - j
    {
      if IsDigit(At(s, j)) {
        j := j + 1;
      } else if At(s, j) == '.' {
        isDouble := true;
        j := j + 1;
        if !IsDigit(At(s, j)) { return; }
      } else {
        return;
      }
    }
  }

  /** `_escape_from`. */
  method UnescapeText(s: string, i: nat, e: nat) returns (r: string)
    requires e <= |s|
    ensures r == Unescape(s, i, e)
  {
    r := [];
    var k := i;
    while k < e
      invariant r + Unescape(s, k, e) == Unescape(s, i, e)
      decreases e - k
    {
      ghost var rest := Unescape(s, k, e);
      if s[k] == '\\' && Unletter(At(s, k + 1)).Some? {
        r := r + [Unletter(At(s, k + 1)).value];
        k := k + 2;
      } else {
        r := r + [s[k]];
        k := k + 1;
      }
    }
  }

  /** The cases of `_step_value` and `_step_key_value` that read a value that is not a struct. */
  method StepScalar(s: string, i: nat) returns (ok: bool, value: Value, j: nat)
    ensures Scalar(s, i) == if ok then Some((value, j)) else None
  {
    hide StringEnd, Unescape, Number, StrToLl;
    var c := At(s, i);
    ok, value, j := true, Null, i;
    if c == '"' {
      var e := StepString(s, i + 1);
      var text := UnescapeText(s, i + 1, if e < |s| then e else |s|);
      value, j := Text(text), e + 1;
    } else if IsDigit(c) || c == '-' {
      var isDouble;
      j, isDouble := StepNumber(s, i);
      value := if isDouble then Real(s[i..j]) else Integer(StrToLl(s, i));
    } else if IsWord(s, i, "true") {
      value, j := True, i + 4;
    } else if IsWord(s, i, "false") {
      value, j := False, i + 5;
    } else if IsWord(s, i, "null") {
      value, j := Null, i + 4;
    } else {
      ok := false;
    }
  }
}
