/** The handful of Python string operations the service relies on:
    `str.strip()`, `str.split(sep)`, `str.lower()` and decimal printing of
    integers, with the facts about them that the rest of the model uses. */
module Text {
  import opened Wrappers

  /** The characters for which Python's `str.isspace()` holds; `str.strip()`
      with no argument removes exactly these from both ends. */
  predicate IsSpace(c: char) {
    || c == ' '
    || ('\t' <= c <= '\r')
    || ('\U{1c}' <= c <= '\U{1f}')
    || c == '\U{85}' || c == '\U{a0}' || c == '\U{1680}'
    || ('\U{2000}' <= c <= '\U{200a}')
    || c == '\U{2028}' || c == '\U{2029}' || c == '\U{202f}' || c == '\U{205f}' || c == '\U{3000}'
  }

  /** Neither end of `s` is whitespace. */
  predicate Trimmed(s: string) {
    s == [] || (!IsSpace(s[0]) && !IsSpace(s[|s| - 1]))
  }

  predicate AllSpace(s: string) {
    forall i :: 0 <= i < |s| ==> IsSpace(s[i])
  }

  function TrimStart(s: string): (r: string)
    ensures |r| <= |s|
    ensures r == [] || !IsSpace(r[0])
  {
    if s != [] && IsSpace(s[0]) then TrimStart(s[1..]) else s
  }

  /** `TrimStart` keeps a suffix of its input. */
  lemma {:induction false} TrimStartSuffix(s: string)
    ensures TrimStart(s) == s[|s| - |TrimStart(s)|..]
  {
    if s != [] && IsSpace(s[0]) {
      TrimStartSuffix(s[1..]);
      assert s[1..][|s| - 1 - |TrimStart(s)|..] == s[|s| - |TrimStart(s)|..];
    }
  }

  /** Everything `TrimStart` drops is whitespace. */
  lemma {:induction false} TrimStartDropsSpace(s: string)
    ensures forall i :: 0 <= i < |s| - |TrimStart(s)| ==> IsSpace(s[i])
  {
    if s != [] && IsSpace(s[0]) {
      TrimStartDropsSpace(s[1..]);
      forall i | 1 <= i < |s| - |TrimStart(s)| ensures IsSpace(s[i]) {
        assert s[i] == s[1..][i - 1];
      }
    }
  }

  function TrimEnd(s: string): (r: string)
    ensures |r| <= |s|
    ensures r == [] || (r[0] == s[0] && !IsSpace(r[|r| - 1]))
  {
    if s != [] && IsSpace(s[|s| - 1]) then TrimEnd(s[..|s| - 1]) else s
  }

  /** `TrimEnd` keeps a prefix of its input. */
  lemma {:induction false} TrimEndPrefix(s: string)
    ensures TrimEnd(s) == s[..|TrimEnd(s)|]
  {
    if s != [] && IsSpace(s[|s| - 1]) {
      TrimEndPrefix(s[..|s| - 1]);
      assert s[..|s| - 1][..|TrimEnd(s)|] == s[..|TrimEnd(s)|];
    }
  }

  /** Everything `TrimEnd` drops is whitespace. */
  lemma {:induction false} TrimEndDropsSpace(s: string)
    ensures forall i :: |TrimEnd(s)| <= i < |s| ==> IsSpace(s[i])
  {
    if s != [] && IsSpace(s[|s| - 1]) {
      TrimEndDropsSpace(s[..|s| - 1]);
    }
  }

  /** Python's `s.strip()`: neither end of the result is whitespace. */
  function Strip(s: string): (r: string)
    ensures |r| <= |s|
    ensures Trimmed(r)
  {
    TrimEnd(TrimStart(s))
  }

  /** `TrimStart` only removes characters. */
  lemma {:induction false} TrimStartAvoids(s: string, c: char)
    requires c !in s
    ensures c !in TrimStart(s)
  {
    if s != [] && IsSpace(s[0]) {
      TrimStartAvoids(s[1..], c);
    }
  }

  /** `TrimEnd` only removes characters. */
  lemma {:induction false} TrimEndAvoids(s: string, c: char)
    requires c !in s
    ensures c !in TrimEnd(s)
  {
    if s != [] && IsSpace(s[|s| - 1]) {
      TrimEndAvoids(s[..|s| - 1], c);
    }
  }

  /** A character the input lacks is not in its `strip()`. */
  lemma StripAvoids(s: string, c: char)
    requires c !in s
    ensures c !in Strip(s)
  {
    TrimStartAvoids(s, c);
    TrimEndAvoids(TrimStart(s), c);
  }

  /** `strip()` gives "" exactly for an all-whitespace string. */
  lemma StripBlank(s: string)
    ensures Strip(s) == [] <==> AllSpace(s)
  {
    var t := TrimStart(s);
    TrimStartDropsSpace(s);
    TrimEndDropsSpace(t);
    if Strip(s) == [] {
      assert t == [];
    } else {
      TrimStartSuffix(s);
      assert s[|s| - |t|] == t[0] == Strip(s)[0];
    }
  }

  /** `strip()` removes whitespace at the two ends and nothing else: the
      result is a slice of the input with only whitespace before and after it. */
  lemma StripMiddle(s: string)
    ensures exists i, j :: 0 <= i <= j <= |s| && Strip(s) == s[i..j] && AllSpace(s[..i]) && AllSpace(s[j..])
  {
    var t := TrimStart(s);
    var r := Strip(s);
    var i := |s| - |t|;
    var j := i + |r|;
    TrimStartSuffix(s);
    TrimEndPrefix(t);
    TrimStartDropsSpace(s);
    TrimEndDropsSpace(t);
    assert r == s[i..][..|r|];
    assert s[i..][..|r|] == s[i..j];
    forall k | 0 <= k < |s[j..]| ensures IsSpace(s[j..][k]) {
      assert s[j..][k] == t[|r| + k];
    }
    assert AllSpace(s[..i]);
  }

  /** A string that is already trimmed is its own `strip()`. */
  lemma StripTrimmed(s: string)
    requires Trimmed(s)
    ensures Strip(s) == s
  {
  }

  /** Python's `s.split(sep)` for a one-character separator: the pieces are
      what lies between consecutive separators, and there is at least one. */
  function Split(s: string, sep: char): (r: seq<string>)
    ensures |r| >= 1
  {
    if s == [] then [""]
    else if s[0] == sep then [""] + Split(s[1..], sep)
    else
      var rest := Split(s[1..], sep);
      [[s[0]] + rest[0]] + rest[1..]
  }

  /** No piece contains the separator. */
  lemma {:induction false} SplitPiecesAvoid(s: string, sep: char)
    ensures forall p :: p in Split(s, sep) ==> sep !in p
  {
    if s != [] {
      SplitPiecesAvoid(s[1..], sep);
      var rest := Split(s[1..], sep);
      if s[0] != sep {
        assert rest[0] in rest;
        assert sep !in [s[0]] + rest[0];
        assert forall p :: p in rest[1..] ==> p in rest;
      }
    }
  }

  /** Python's `sep.join(pieces)`. */
  function Join(pieces: seq<string>, sep: char): string {
    if pieces == [] then ""
    else if |pieces| == 1 then pieces[0]
    else pieces[0] + [sep] + Join(pieces[1..], sep)
  }

  lemma JoinPrepend(c: char, pieces: seq<string>, sep: char)
    requires pieces != []
    ensures Join([[c] + pieces[0]] + pieces[1..], sep) == [c] + Join(pieces, sep)
  {
    var q := [[c] + pieces[0]] + pieces[1..];
    assert q[1..] == pieces[1..];
  }

  /** Splitting loses nothing: joining the pieces back gives the string. */
  lemma {:induction false} JoinSplit(s: string, sep: char)
    ensures Join(Split(s, sep), sep) == s
  {
    if s == [] {
    } else if s[0] == sep {
      JoinSplit(s[1..], sep);
      var rest := Split(s[1..], sep);
      assert Split(s, sep) == [""] + rest;
      assert ([""] + rest)[1..] == rest;
      assert s == [sep] + s[1..];
    } else {
      JoinSplit(s[1..], sep);
      var rest := Split(s[1..], sep);
      JoinPrepend(s[0], rest, sep);
      assert s == [s[0]] + s[1..];
    }
  }

  /** A string without the separator is a single piece. */
  lemma {:induction false} SplitWithoutSeparator(s: string, sep: char)
    requires sep !in s
    ensures Split(s, sep) == [s]
  {
    if s != [] {
      SplitWithoutSeparator(s[1..], sep);
      assert [s[0]] + s[1..] == s;
    }
  }

  /** Splitting distributes over a separator placed between two strings. */
  lemma {:induction false} SplitConcat(a: string, b: string, sep: char)
    ensures Split(a + [sep] + b, sep) == Split(a, sep) + Split(b, sep)
  {
    var s := a + [sep] + b;
    if a == [] {
      assert s[0] == sep && s[1..] == b;
    } else {
      assert s[0] == a[0] && s[1..] == a[1..] + [sep] + b;
      SplitConcat(a[1..], b, sep);
      if a[0] == sep {
      } else {
        var restA := Split(a[1..], sep);
        var rest := Split(s[1..], sep);
        assert rest == restA + Split(b, sep);
        assert rest[0] == restA[0];
        assert rest[1..] == restA[1..] + Split(b, sep);
      }
    }
  }

  /** `[item.strip() for item in pieces if item.strip()]`. */
  function StrippedNonBlank(pieces: seq<string>): (r: seq<string>)
    ensures |r| <= |pieces|
  {
    if pieces == [] then []
    else
      var head := Strip(pieces[0]);
      (if head == [] then [] else [head]) + StrippedNonBlank(pieces[1..])
  }

  /** Every kept item is non-empty and has no whitespace at either end. */
  lemma {:induction false} StrippedNonBlankClean(pieces: seq<string>)
    ensures forall x :: x in StrippedNonBlank(pieces) ==> x != [] && Trimmed(x)
  {
    if pieces != [] {
      StrippedNonBlankClean(pieces[1..]);
    }
  }

  /** A character that no piece contains is in no kept item. */
  lemma {:induction false} StrippedNonBlankAvoids(pieces: seq<string>, c: char)
    requires forall p :: p in pieces ==> c !in p
    ensures forall x :: x in StrippedNonBlank(pieces) ==> c !in x
  {
    if pieces != [] {
      StrippedNonBlankAvoids(pieces[1..], c);
      StripAvoids(pieces[0], c);
    }
  }

  /** Every kept item is the stripped form of some piece. */
  lemma {:induction false} StrippedNonBlankSound(pieces: seq<string>)
    ensures forall x :: x in StrippedNonBlank(pieces) ==> exists p :: p in pieces && Strip(p) == x
  {
    if pieces != [] {
      StrippedNonBlankSound(pieces[1..]);
      forall x | x in StrippedNonBlank(pieces) ensures exists p :: p in pieces && Strip(p) == x {
        if x !in StrippedNonBlank(pieces[1..]) {
          assert Strip(pieces[0]) == x;
        } else {
          var p :| p in pieces[1..] && Strip(p) == x;
          assert p in pieces;
        }
      }
    }
  }

  /** Every piece that is not blank is kept, stripped. */
  lemma {:induction false} StrippedNonBlankComplete(pieces: seq<string>)
    ensures forall p :: p in pieces && Strip(p) != [] ==> Strip(p) in StrippedNonBlank(pieces)
  {
    if pieces != [] {
      StrippedNonBlankComplete(pieces[1..]);
      forall p | p in pieces && Strip(p) != [] ensures Strip(p) in StrippedNonBlank(pieces) {
        if p != pieces[0] {
          assert p in pieces[1..];
        }
      }
    }
  }

  /** Nothing is kept exactly when every piece is blank. */
  lemma StrippedNonBlankEmpty(pieces: seq<string>)
    ensures StrippedNonBlank(pieces) == [] <==> forall p :: p in pieces ==> Strip(p) == []
  {
    StrippedNonBlankSound(pieces);
    StrippedNonBlankComplete(pieces);
    if StrippedNonBlank(pieces) != [] {
      assert StrippedNonBlank(pieces)[0] in StrippedNonBlank(pieces);
    }
  }

  /** The comprehension keeps the order of its input: it distributes over
      concatenation. */
  lemma {:induction false} StrippedNonBlankAppend(a: seq<string>, b: seq<string>)
    ensures StrippedNonBlank(a + b) == StrippedNonBlank(a) + StrippedNonBlank(b)
  {
    if a == [] {
      assert a + b == b;
    } else {
      var ab := a + b;
      assert ab[0] == a[0] && ab[1..] == a[1..] + b;
      var head := Strip(a[0]);
      var kept := if head == [] then [] else [head];
      calc {
        StrippedNonBlank(ab);
        kept + StrippedNonBlank(a[1..] + b);
        { StrippedNonBlankAppend(a[1..], b); }
        kept + (StrippedNonBlank(a[1..]) + StrippedNonBlank(b));
        (kept + StrippedNonBlank(a[1..])) + StrippedNonBlank(b);
        StrippedNonBlank(a) + StrippedNonBlank(b);
      }
    }
  }

  /** The last kept item is the stripped form of the last non-blank piece. */
  lemma LastStrippedNonBlank(pieces: seq<string>, k: nat)
    requires k < |pieces| && Strip(pieces[k]) != []
    requires forall p :: p in pieces[k + 1..] ==> Strip(p) == []
    ensures StrippedNonBlank(pieces) != []
    ensures StrippedNonBlank(pieces)[|StrippedNonBlank(pieces)| - 1] == Strip(pieces[k])
  {
    var front, back := pieces[..k], pieces[k + 1..];
    assert pieces == front + [pieces[k]] + back;
    StrippedNonBlankAppend(front + [pieces[k]], back);
    StrippedNonBlankAppend(front, [pieces[k]]);
    StrippedNonBlankEmpty(back);
    assert StrippedNonBlank([pieces[k]]) == [Strip(pieces[k])] by {
      assert [pieces[k]][1..] == [];
    }
  }

  function LowerChar(c: char): char {
    if 'A' <= c <= 'Z' then (c as int + 32) as char else c
  }

  /** `s.lower()`, on the ASCII letters. */
  function AsciiLower(s: string): (r: string)
    ensures |r| == |s|
  {
    if s == [] then [] else [LowerChar(s[0])] + AsciiLower(s[1..])
  }

  /** Lower-casing works character by character, in place. */
  lemma {:induction false} AsciiLowerAt(s: string)
    ensures forall i :: 0 <= i < |s| ==> AsciiLower(s)[i] == LowerChar(s[i])
  {
    if s != [] {
      AsciiLowerAt(s[1..]);
    }
  }

  /** Lower-casing twice is lower-casing once. */
  lemma {:induction false} AsciiLowerIdempotent(s: string)
    ensures AsciiLower(AsciiLower(s)) == AsciiLower(s)
  {
    if s != [] {
      AsciiLowerIdempotent(s[1..]);
      var once := AsciiLower(s);
      assert once[1..] == AsciiLower(s[1..]);
    }
  }

  predicate IsDigit(c: char) {
    '0' <= c <= '9'
  }

  predicate AllDigits(s: string) {
    forall i :: 0 <= i < |s| ==> IsDigit(s[i])
  }

  function DigitChar(d: nat): (c: char)
    requires d < 10
    ensures IsDigit(c) && c as int - '0' as int == d
  {
    ('0' as int + d) as char
  }

  /** `str(n)` for a non-negative integer: its decimal digits, no leading zero. */
  function NatToString(n: nat): (r: string)
    ensures r != [] && AllDigits(r)
    ensures r[0] == '0' ==> n == 0
  {
    if n < 10 then [DigitChar(n)] else NatToString(n / 10) + [DigitChar(n % 10)]
  }

  function DigitsValue(s: string): nat
    requires AllDigits(s)
  {
    if s == [] then 0
    else DigitsValue(s[..|s| - 1]) * 10 + (s[|s| - 1] as int - '0' as int)
  }

  /** Reads a non-empty run of decimal digits back as a number. */
  function ParseNat(s: string): (r: Option<nat>)
    ensures r.Some? <==> s != [] && AllDigits(s)
  {
    if s != [] && AllDigits(s) then Some(DigitsValue(s)) else None
  }

  /** Printing a number and reading it back gives the number. */
  lemma {:induction false} ParseNatToString(n: nat)
    ensures ParseNat(NatToString(n)) == Some(n)
  {
    var s := NatToString(n);
    if n >= 10 {
      ParseNatToString(n / 10);
      var prefix := NatToString(n / 10);
      assert s == prefix + [DigitChar(n % 10)];
      assert s[..|s| - 1] == prefix;
      assert DigitsValue(prefix) == n / 10;
      assert DigitsValue(s) == (n / 10) * 10 + n % 10;
    }
  }
}
