/** The two string operations the plant map applies to its CSV cells:
    Python's `str.strip()` and `str.lower()`. */
module Text {

  /** Python's `str.isspace()`: the characters `str.strip()` removes. */
  predicate IsSpace(c: char) {
    c in {' ', '\t', '\n', '\r', '\U{0B}', '\U{0C}', '\U{1C}', '\U{1D}', '\U{1E}', '\U{1F}',
          '\U{85}', '\U{A0}', '\U{1680}', '\U{2028}', '\U{2029}', '\U{202F}', '\U{205F}', '\U{3000}'}
    || ('\U{2000}' <= c <= '\U{200A}')
  }

  /** Every character of `s` is whitespace. */
  predicate IsBlank(s: string) {
    forall i :: 0 <= i < |s| ==> IsSpace(s[i])
  }

  /** `str.lstrip()`: drops the leading whitespace. */
  function TrimLeft(s: string): string {
    if |s| > 0 && IsSpace(s[0]) then TrimLeft(s[1..]) else s
  }

  /** `str.rstrip()`: drops the trailing whitespace. */
  function TrimRight(s: string): string {
    if |s| > 0 && IsSpace(s[|s| - 1]) then TrimRight(s[..|s| - 1]) else s
  }

  /** `str.strip()`. */
  function Trim(s: string): string {
    TrimRight(TrimLeft(s))
  }

  /** `lstrip()` removes a blank prefix and nothing more: what is left is empty or starts
      with a non-whitespace character. */
  lemma {:induction false} TrimLeftShape(s: string)
    ensures |TrimLeft(s)| <= |s|
    ensures IsBlank(s[..|s| - |TrimLeft(s)|]) && s[|s| - |TrimLeft(s)|..] == TrimLeft(s)
    ensures TrimLeft(s) == [] || !IsSpace(TrimLeft(s)[0])
    decreases |s|
  {
    if |s| > 0 && IsSpace(s[0]) {
      TrimLeftShape(s[1..]);
      var n := |s| - |TrimLeft(s)|;
      assert s[1..][..n - 1] == s[1..n];
      assert s[1..][n - 1..] == s[n..];
      assert IsBlank(s[..n]) by {
        forall i | 0 <= i < n ensures IsSpace(s[..n][i]) {
          if i > 0 {
            assert s[..n][i] == s[1..n][i - 1];
          }
        }
      }
    } else {
      assert s[..0] == [] && s[0..] == s;
    }
  }

  /** `rstrip()` removes a blank suffix and nothing more: what is left is empty or ends
      with a non-whitespace character. */
  lemma {:induction false} TrimRightShape(s: string)
    ensures |TrimRight(s)| <= |s|
    ensures s[..|TrimRight(s)|] == TrimRight(s) && IsBlank(s[|TrimRight(s)|..])
    ensures TrimRight(s) == [] || !IsSpace(TrimRight(s)[|TrimRight(s)| - 1])
    decreases |s|
  {
    if |s| > 0 && IsSpace(s[|s| - 1]) {
      var s' := s[..|s| - 1];
      TrimRightShape(s');
      var n := |TrimRight(s)|;
      assert s'[..n] == s[..n];
      assert IsBlank(s[n..]) by {
        forall i | 0 <= i < |s| - n ensures IsSpace(s[n..][i]) {
          if n + i < |s| - 1 {
            assert s[n..][i] == s'[n..][i];
          }
        }
      }
    } else {
      assert s[..|s|] == s && s[|s|..] == [];
    }
  }

  /** `strip()` removes a blank prefix and a blank suffix and nothing more: the result is
      empty or neither starts nor ends with whitespace. Together these pin `Trim` down as
      Python's `str.strip()`. */
  lemma TrimShape(s: string)
    ensures exists p, q :: IsBlank(p) && IsBlank(q) && s == p + Trim(s) + q
    ensures Trim(s) == [] || (!IsSpace(Trim(s)[0]) && !IsSpace(Trim(s)[|Trim(s)| - 1]))
  {
    TrimLeftShape(s);
    TrimRightShape(TrimLeft(s));
    TrimSplit(s, s[..|s| - |TrimLeft(s)|], TrimLeft(s), Trim(s), TrimLeft(s)[|Trim(s)|..]);
  }

  lemma TrimSplit(s: string, p: string, l: string, t: string, q: string)
    requires s == p + l && l == t + q
    ensures s == p + t + q
  {
  }

  /** `str.lower()` on one character; only ASCII letters are mapped. */
  function LowerChar(c: char): char {
    if 'A' <= c <= 'Z' then (c as int - 'A' as int + 'a' as int) as char else c
  }

  /** `str.lower()`, character by character. */
  function Lower(s: string): (r: string)
    ensures |r| == |s|
    ensures forall i :: 0 <= i < |s| ==> r[i] == LowerChar(s[i])
  {
    if |s| == 0 then [] else [LowerChar(s[0])] + Lower(s[1..])
  }

  /** The normalisation of the system and type columns: `cell.strip().lower()`. */
  function Normalize(s: string): string {
    Lower(Trim(s))
  }

  /** Lower-casing never creates or removes whitespace. */
  lemma LowerCharKeepsSpace(c: char)
    ensures IsSpace(LowerChar(c)) <==> IsSpace(c)
  {
  }

  lemma LowerSlice(s: string, i: int, j: int)
    requires 0 <= i <= j <= |s|
    ensures Lower(s)[i..j] == Lower(s[i..j])
  {
  }

  /** Trimming and lower-casing commute, so `strip().lower()` equals `lower().strip()`. */
  lemma {:induction false} TrimLeftLower(s: string)
    ensures Lower(TrimLeft(s)) == TrimLeft(Lower(s))
    decreases |s|
  {
    if |s| > 0 {
      LowerCharKeepsSpace(s[0]);
      if IsSpace(s[0]) {
        TrimLeftLower(s[1..]);
        LowerSlice(s, 1, |s|);
      }
    }
  }

  lemma {:induction false} TrimRightLower(s: string)
    ensures Lower(TrimRight(s)) == TrimRight(Lower(s))
    decreases |s|
  {
    if |s| > 0 {
      LowerCharKeepsSpace(s[|s| - 1]);
      if IsSpace(s[|s| - 1]) {
        TrimRightLower(s[..|s| - 1]);
        LowerSlice(s, 0, |s| - 1);
      }
    }
  }

  lemma TrimLower(s: string)
    ensures Lower(Trim(s)) == Trim(Lower(s))
  {
    TrimLeftLower(s);
    TrimRightLower(TrimLeft(s));
  }

  /** Leading and trailing whitespace does not survive `strip()`. */
  lemma {:induction false} TrimLeftPadding(p: string, s: string)
    requires IsBlank(p)
    ensures TrimLeft(p + s) == TrimLeft(s)
    decreases |p|
  {
    if |p| > 0 {
      var ps := p + s;
      assert IsSpace(p[0]) && ps[0] == p[0];
      assert ps[1..] == p[1..] + s;
      assert IsBlank(p[1..]) by {
        forall i | 0 <= i < |p| - 1 ensures IsSpace(p[1..][i]) {
          assert p[1..][i] == p[i + 1];
        }
      }
      TrimLeftPadding(p[1..], s);
    } else {
      assert p + s == s;
    }
  }

  lemma {:induction false} TrimRightPadding(s: string, q: string)
    requires IsBlank(q)
    ensures TrimRight(s + q) == TrimRight(s)
    decreases |q|
  {
    if |q| > 0 {
      var sq := s + q;
      assert IsSpace(q[|q| - 1]) && sq[|sq| - 1] == q[|q| - 1];
      assert sq[..|sq| - 1] == s + q[..|q| - 1];
      var q' := q[..|q| - 1];
      assert IsBlank(q') by {
        forall i | 0 <= i < |q'| ensures IsSpace(q'[i]) {
          assert q'[i] == q[i];
        }
      }
      TrimRightPadding(s, q[..|q| - 1]);
    } else {
      assert s + q == s;
    }
  }

  /** Appending whitespace after a cell shows through `lstrip()` unless the cell is blank. */
  lemma {:induction false} TrimLeftAppend(s: string, q: string)
    requires IsBlank(q)
    ensures TrimLeft(s) == [] ==> TrimLeft(s + q) == []
    ensures TrimLeft(s) != [] ==> TrimLeft(s + q) == TrimLeft(s) + q
    decreases |s|
  {
    if |s| == 0 {
      assert s + q == q;
      TrimLeftPadding(q, []);
      assert q + [] == q;
    } else {
      assert (s + q)[0] == s[0];
      if IsSpace(s[0]) {
        assert (s + q)[1..] == s[1..] + q;
        TrimLeftAppend(s[1..], q);
      }
    }
  }

  lemma TrimPadding(p: string, s: string, q: string)
    requires IsBlank(p) && IsBlank(q)
    ensures Trim(p + s + q) == Trim(s)
  {
    assert p + s + q == p + (s + q);
    TrimLeftPadding(p, s + q);
    TrimLeftAppend(s, q);
    if TrimLeft(s) != [] {
      TrimRightPadding(TrimLeft(s), q);
    }
  }

  /** Cells of the system or type column that differ only in letter case and in the
      whitespace around them normalise to the same value. */
  lemma {:induction false} NormalizeIgnoresCaseAndPadding(p1: string, a: string, q1: string,
                                                         p2: string, b: string, q2: string)
    requires IsBlank(p1) && IsBlank(q1) && IsBlank(p2) && IsBlank(q2)
    requires Lower(a) == Lower(b)
    ensures Normalize(p1 + a + q1) == Normalize(p2 + b + q2)
  {
    TrimPadding(p1, a, q1);
    TrimPadding(p2, b, q2);
    TrimLower(a);
    TrimLower(b);
  }
}
