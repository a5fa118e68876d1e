/**
 * The flat form keys of the admin submission, `links-<index>-<field>`, and the
 * two pieces of JavaScript semantics the reconstruction depends on:
 * String.prototype.split("-") and the ECMAScript notion of an array index.
 */
module FormKeys {
  import opened Wrappers

  const LinkPrefix: string := "links-"

  /** key.startsWith("links-") */
  predicate IsLinkKey(key: string)
  {
    |key| >= |LinkPrefix| && key[..|LinkPrefix|] == LinkPrefix
  }

  // ---------------------------------------------------------------------------
  // split("-") and its inverse, join("-")
  // ---------------------------------------------------------------------------

  /** The pieces of `s` between dashes, as String.prototype.split("-") returns them. */
  function Split(s: string): (pieces: seq<string>)
    ensures |pieces| >= 1
  {
    if s == [] then [""]
    else
      var rest := Split(s[1..]);
      if s[0] == '-' then [""] + rest
      else [[s[0]] + rest[0]] + rest[1..]
  }

  /** Array.prototype.join("-") */
  function Join(pieces: seq<string>): string
    requires |pieces| >= 1
  {
    if |pieces| == 1 then pieces[0] else pieces[0] + "-" + Join(pieces[1..])
  }

  predicate DashFree(pieces: seq<string>)
  {
    forall i :: 0 <= i < |pieces| ==> '-' !in pieces[i]
  }

  /** Splitting yields dash-free pieces that join back to the original key. */
  lemma {:induction false} JoinSplit(s: string)
    ensures DashFree(Split(s))
    ensures Join(Split(s)) == s
  {
    if s != [] {
      JoinSplit(s[1..]);
      var rest := Split(s[1..]);
      if s[0] == '-' {
        assert Split(s)[1..] == rest;
      } else {
        if |rest| > 1 {
          assert Split(s)[1..] == rest[1..];
          assert Join(rest) == rest[0] + "-" + Join(rest[1..]);
        }
      }
    }
  }

  /** Splitting a dash-free prefix glues it onto the first piece of the rest. */
  lemma {:induction false} SplitDashFreePrefix(a: string, t: string)
    requires '-' !in a
    ensures Split(a + t) == [a + Split(t)[0]] + Split(t)[1..]
  {
    if a != [] {
      assert (a + t)[1..] == a[1..] + t;
      SplitDashFreePrefix(a[1..], t);
      var rest := Split(a[1..] + t);
      assert a[0] != '-' by { assert a[0] in a; }
      assert rest[0] == a[1..] + Split(t)[0];
      assert rest[1..] == Split(t)[1..];
      assert Split(a + t) == [[a[0]] + rest[0]] + rest[1..];
      assert [a[0]] + (a[1..] + Split(t)[0]) == a + Split(t)[0];
    } else {
      assert a + t == t && a + Split(t)[0] == Split(t)[0];
    }
  }

  lemma DashSplit(t: string)
    ensures Split("-" + t) == [""] + Split(t)
  {
    assert ("-" + t)[0] == '-' && ("-" + t)[1..] == t;
  }

  /** Joining dash-free pieces and splitting again gives the pieces back. */
  lemma {:induction false} SplitJoin(pieces: seq<string>)
    requires |pieces| >= 1 && DashFree(pieces)
    ensures Split(Join(pieces)) == pieces
  {
    if |pieces| == 1 {
      SplitDashFreePrefix(pieces[0], "");
      assert pieces[0] + "" == pieces[0];
    } else {
      var tail := Join(pieces[1..]);
      assert DashFree(pieces[1..]) by {
        forall i | 0 <= i < |pieces[1..]| ensures '-' !in pieces[1..][i] {
          assert pieces[1..][i] == pieces[i + 1];
        }
      }
      SplitJoin(pieces[1..]);
      assert '-' !in pieces[0];
      SplitDashFreePrefix(pieces[0], "-" + tail);
      DashSplit(tail);
      assert Join(pieces) == pieces[0] + ("-" + tail);
      assert pieces[0] + "" == pieces[0];
      assert pieces == [pieces[0]] + pieces[1..];
    }
  }

  /** A link key splits into "links" followed by the pieces after the prefix. */
  lemma LinkKeySplit(key: string)
    requires IsLinkKey(key)
    ensures Split(key) == ["links"] + Split(key[|LinkPrefix|..])
    ensures |Split(key)| >= 2
  {
    var rest := key[|LinkPrefix|..];
    assert key == "links" + ("-" + rest);
    SplitDashFreePrefix("links", "-" + rest);
    DashSplit(rest);
    assert "links" + "" == "links";
  }

  /**
   * The n-th element of a destructured array; a missing element is
   * `undefined`, which becomes the property key "undefined".
   */
  function Piece(pieces: seq<string>, n: nat): string
  {
    if n < |pieces| then pieces[n] else "undefined"
  }

  /** `index` in `const [_, index, field] = key.split("-")` */
  function IndexText(key: string): string
  {
    Piece(Split(key), 1)
  }

  /** `field` in `const [_, index, field] = key.split("-")` */
  function FieldName(key: string): string
  {
    Piece(Split(key), 2)
  }

  /**
   * In a link key the index is the text right after `links-` up to the next
   * dash, and neither the index nor the field contains a dash.
   */
  lemma KeyPieces(key: string)
    requires IsLinkKey(key)
    ensures '-' !in IndexText(key) && '-' !in FieldName(key)
    ensures |LinkPrefix| + |IndexText(key)| <= |key|
    ensures key[..|LinkPrefix| + |IndexText(key)|] == LinkPrefix + IndexText(key)
    ensures |LinkPrefix| + |IndexText(key)| < |key| ==> key[|LinkPrefix| + |IndexText(key)|] == '-'
  {
    var rest := key[|LinkPrefix|..];
    LinkKeySplit(key);
    JoinSplit(rest);
    var p := Split(rest);
    JoinHead(p);
    assert key == LinkPrefix + rest;
    if |Split(key)| > 2 {
      assert FieldName(key) == p[1];
    }
  }

  /** The first piece starts the joined string, followed by a dash if more pieces come. */
  lemma JoinHead(p: seq<string>)
    requires |p| >= 1
    ensures |p[0]| <= |Join(p)| && Join(p)[..|p[0]|] == p[0]
    ensures |p| > 1 ==> |p[0]| < |Join(p)| && Join(p)[|p[0]|] == '-'
    ensures |p| == 1 ==> Join(p) == p[0]
  {
  }

  // ---------------------------------------------------------------------------
  // Array indices
  // ---------------------------------------------------------------------------

  /** 2^32 - 1: an array index is a canonical decimal below this bound. */
  const ArrayIndexBound: nat := 4294967295

  predicate IsDigit(c: char) { '0' <= c <= '9' }

  predicate AllDigits(s: string)
  {
    forall i :: 0 <= i < |s| ==> IsDigit(s[i])
  }

  function DigitChar(d: nat): char
    requires d < 10
  {
    ['0', '1', '2', '3', '4', '5', '6', '7', '8', '9'][d]
  }

  function DigitValue(c: char): nat
    requires IsDigit(c)
  {
    (c as int - '0' as int) as nat
  }

  /** Number.prototype.toString() of a non-negative integer. */
  function DecimalString(n: nat): string
  {
    if n < 10 then [DigitChar(n)] else DecimalString(n / 10) + [DigitChar(n % 10)]
  }

  /** The value of a string of decimal digits, most significant first. */
  function DigitsValue(s: string): nat
    requires AllDigits(s)
  {
    if s == [] then 0 else DigitsValue(s[..|s| - 1]) * 10 + DigitValue(s[|s| - 1])
  }

  /** Non-empty digits with no leading zero, or "0" itself. */
  predicate IsCanonicalDecimal(s: string)
  {
    |s| >= 1 && AllDigits(s) && (|s| == 1 || s[0] != '0')
  }

  /**
   * The array index named by a property key, if any: a key P is an array
   * index when ToString(ToUint32(P)) is P and ToUint32(P) is not 2^32 - 1
   * (section 6.1.7 of ECMA-262). Any other key names a plain property.
   */
  function ArrayIndex(s: string): (r: Option<nat>)
  {
    if IsCanonicalDecimal(s) && DigitsValue(s) < ArrayIndexBound then Some(DigitsValue(s)) else None
  }

  lemma DigitCharValue(d: nat)
    requires d < 10
    ensures IsDigit(DigitChar(d)) && DigitValue(DigitChar(d)) == d
  {
  }

  /** DecimalString is canonical, reads back as its input and starts non-zero for n >= 1. */
  lemma {:induction false} DecimalStringValue(n: nat)
    ensures IsCanonicalDecimal(DecimalString(n))
    ensures DigitsValue(DecimalString(n)) == n
    ensures n >= 1 ==> DecimalString(n)[0] != '0'
  {
    DigitCharValue(n % 10);
    if n >= 10 {
      DecimalStringValue(n / 10);
      var s := DecimalString(n);
      assert s[..|s| - 1] == DecimalString(n / 10);
      assert s[0] == DecimalString(n / 10)[0];
    }
  }

  /** A digit string that does not start with '0' has a positive value. */
  lemma {:induction false} LeadingDigitPositive(s: string)
    requires |s| >= 1 && AllDigits(s) && s[0] != '0'
    ensures DigitsValue(s) >= 1
  {
    if |s| > 1 {
      LeadingDigitPositive(s[..|s| - 1]);
    }
  }

  /** A canonical decimal is the DecimalString of its value. */
  lemma {:induction false} CanonicalDecimalString(s: string)
    requires IsCanonicalDecimal(s)
    ensures DecimalString(DigitsValue(s)) == s
  {
    var d := DigitValue(s[|s| - 1]);
    assert DigitChar(d) == s[|s| - 1];
    if |s| > 1 {
      var t := s[..|s| - 1];
      assert IsCanonicalDecimal(t);
      CanonicalDecimalString(t);
      LeadingDigitPositive(t);
      var v := DigitsValue(t);
      assert (v * 10 + d) / 10 == v && (v * 10 + d) % 10 == d;
      assert s == t + [s[|s| - 1]];
    }
  }

  /** An array index is exactly the decimal text of a number below 2^32 - 1. */
  lemma ArrayIndexIsDecimal(s: string, n: nat)
    ensures ArrayIndex(s) == Some(n) <==> (n < ArrayIndexBound && s == DecimalString(n))
  {
    if ArrayIndex(s) == Some(n) {
      CanonicalDecimalString(s);
    }
    if n < ArrayIndexBound && s == DecimalString(n) {
      DecimalStringValue(n);
    }
  }
}
