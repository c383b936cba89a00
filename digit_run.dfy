/**
 * `int(re.findall(r'\d+', s)[0])`: the leftmost maximal run of decimal
 * digits in `s`, read as a base-10 number. Only the ASCII digits are
 * modelled.
 */
module DigitRun {
  import opened Wrappers

  predicate IsDigit(c: char) {
    '0' <= c <= '9'
  }

  predicate AllDigits(s: string) {
    forall i :: 0 <= i < |s| ==> IsDigit(s[i])
  }

  predicate NoDigits(s: string) {
    forall i :: 0 <= i < |s| ==> !IsDigit(s[i])
  }

  /** `run` is the first match of `\d+` in `s`, with `pre` before it and `post` after it. */
  ghost predicate FirstRunAt(s: string, pre: string, run: string, post: string) {
    && s == pre + run + post
    && NoDigits(pre)
    && run != [] && AllDigits(run)
    && (post == [] || !IsDigit(post[0]))
  }

  /** The longest prefix of `s` made of digits (the greedy `\d+`). */
  function DigitPrefix(s: string): string {
    if s != [] && IsDigit(s[0]) then [s[0]] + DigitPrefix(s[1..]) else []
  }

  /** `re.findall(r'\d+', s)[0]`, or `None` where that list is empty. */
  function FirstDigitRun(s: string): (r: Option<string>)
    ensures r.Some? ==> r.value != [] && AllDigits(r.value)
  {
    if s == [] then None
    else if IsDigit(s[0]) then DigitPrefixIsMaximal(s); Some(DigitPrefix(s))
    else FirstDigitRun(s[1..])
  }

  /** `int(ds)` for a string of decimal digits (leading zeros allowed). */
  function DigitsValue(ds: string): nat
    requires AllDigits(ds)
  {
    if ds == [] then 0
    else 10 * DigitsValue(ds[..|ds| - 1]) + (ds[|ds| - 1] as int - '0' as int)
  }

  /** `str(n)`: the decimal numeral of `n`, without leading zeros. */
  function Show(n: nat): string {
    if n < 10 then [('0' as int + n) as char]
    else Show(n / 10) + [('0' as int + n % 10) as char]
  }

  lemma {:induction false} DigitPrefixIsMaximal(s: string)
    ensures |DigitPrefix(s)| <= |s|
    ensures DigitPrefix(s) == s[..|DigitPrefix(s)|]
    ensures AllDigits(DigitPrefix(s))
    ensures |DigitPrefix(s)| == |s| || !IsDigit(s[|DigitPrefix(s)|])
    decreases |s|
  {
    if s != [] && IsDigit(s[0]) {
      DigitPrefixIsMaximal(s[1..]);
    }
  }

  lemma {:induction false} DigitPrefixOfRun(run: string, post: string)
    requires AllDigits(run)
    requires post == [] || !IsDigit(post[0])
    ensures DigitPrefix(run + post) == run
    decreases |run|
  {
    if run == [] {
      assert run + post == post;
    } else {
      assert (run + post)[0] == run[0] && (run + post)[1..] == run[1..] + post;
      DigitPrefixOfRun(run[1..], post);
      assert [run[0]] + run[1..] == run;
    }
  }

  /** Any first `\d+` match, however it is found, is the one `FirstDigitRun` returns. */
  lemma {:induction false} FirstDigitRunFinds(s: string, pre: string, run: string, post: string)
    requires FirstRunAt(s, pre, run, post)
    ensures FirstDigitRun(s) == Some(run)
    decreases |pre|
  {
    if pre == [] {
      assert s == run + post;
      assert s[0] == run[0];
      DigitPrefixOfRun(run, post);
    } else {
      assert s[0] == pre[0];
      assert s[1..] == pre[1..] + run + post;
      FirstDigitRunFinds(s[1..], pre[1..], run, post);
    }
  }

  /** What `FirstDigitRun` returns is a first `\d+` match of `s`. */
  lemma {:induction false} FirstDigitRunSound(s: string)
    requires FirstDigitRun(s).Some?
    ensures exists pre, post :: FirstRunAt(s, pre, FirstDigitRun(s).value, post)
    decreases |s|
  {
    var run := FirstDigitRun(s).value;
    if IsDigit(s[0]) {
      DigitPrefixIsMaximal(s);
      var post := s[|run|..];
      assert s == [] + run + post;
      assert FirstRunAt(s, [], run, post);
    } else {
      FirstDigitRunSound(s[1..]);
      var pre', post :| FirstRunAt(s[1..], pre', run, post);
      assert s == [s[0]] + pre' + run + post;
      assert FirstRunAt(s, [s[0]] + pre', run, post);
    }
  }

  /** `re.findall(r'\d+', s)` is empty exactly when `s` holds no digit. */
  lemma {:induction false} FirstDigitRunNone(s: string)
    ensures FirstDigitRun(s).None? <==> NoDigits(s)
    decreases |s|
  {
    if s != [] {
      FirstDigitRunNone(s[1..]);
      if NoDigits(s[1..]) && !IsDigit(s[0]) {
        forall i | 0 <= i < |s|
          ensures !IsDigit(s[i])
        {
          if i > 0 {
            assert s[i] == s[1..][i - 1];
          }
        }
      }
    }
  }

  /** Leading zeros do not change the value: `int("007") == int("7")`. */
  lemma {:induction false} LeadingZeroIgnored(ds: string)
    requires AllDigits(ds)
    ensures DigitsValue(['0'] + ds) == DigitsValue(ds)
    decreases |ds|
  {
    var zs := ['0'] + ds;
    if ds != [] {
      var init := ds[..|ds| - 1];
      assert zs[..|zs| - 1] == ['0'] + init;
      assert zs[|zs| - 1] == ds[|ds| - 1];
      LeadingZeroIgnored(init);
    } else {
      assert zs[..|zs| - 1] == [];
    }
  }

  /** `str(n)` is a non-empty run of digits that `int` reads back as `n`. */
  lemma {:induction false} ShowRoundTrip(n: nat)
    ensures Show(n) != [] && AllDigits(Show(n))
    ensures DigitsValue(Show(n)) == n
    decreases n
  {
    if n >= 10 {
      ShowRoundTrip(n / 10);
      var s := Show(n);
      assert s[..|s| - 1] == Show(n / 10);
    }
  }
}
