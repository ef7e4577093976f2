/**
 * The `reason` strings: numbers are printed in plain decimal, and the
 * messages for the common failures read exactly as the validator writes them.
 */
module ReasonTexts {
  import opened Json
  import opened Schema
  import opened SchemaValidator

  predicate IsDigit(c: char)
  {
    '0' <= c <= '9'
  }

  /** The number a string of decimal digits denotes. */
  function DecimalValue(s: string): nat
    requires forall i :: 0 <= i < |s| ==> IsDigit(s[i])
  {
    if |s| == 0 then 0
    else
      assert IsDigit(s[|s| - 1]);
      10 * DecimalValue(s[..|s| - 1]) + (s[|s| - 1] as int - '0' as int)
  }

  /** `DigitChar` writes the digit it is given. */
  lemma DigitCharDenotes(d: nat)
    requires d < 10
    ensures IsDigit(DigitChar(d)) && DigitChar(d) as int - '0' as int == d
  {
  }

  /**
   * `${n}` of a whole number is plain decimal: digits only, no leading zero,
   * and it reads back as `n`.
   */
  lemma {:induction false} NatToStringRoundTrip(n: nat)
    ensures var t := NatToString(n);
      && |t| > 0
      && (forall i :: 0 <= i < |t| ==> IsDigit(t[i]))
      && (n > 0 ==> t[0] != '0')
      && DecimalValue(t) == n
  {
    var t := NatToString(n);
    if n < 10 {
      DigitCharDenotes(n);
      assert t == [DigitChar(n)];
      assert t[..0] == [];
    } else {
      var front := NatToString(n / 10);
      NatToStringRoundTrip(n / 10);
      DigitCharDenotes(n % 10);
      assert t == front + [DigitChar(n % 10)];
      assert t[..|t| - 1] == front;
      assert t[0] == front[0];
    }
  }

  /** Different whole numbers print differently. */
  lemma NatToStringInjective(a: nat, b: nat)
    requires NatToString(a) == NatToString(b)
    ensures a == b
  {
    NatToStringRoundTrip(a);
    NatToStringRoundTrip(b);
  }

  /** The missing `required` names are listed in order, comma and space separated. */
  lemma MissingRequiredText(p: Printer)
    ensures Render(MissingRequired(["a", "b"]), p) == "Value should have all required properties but is missing [a, b]"
  {
    assert Join(["a", "b"], ", ") == "a, b" by {
      assert Join(["a", "b"][1..], ", ") == "b";
    }
  }

  /** Extra names are listed the way an array prints itself: comma separated, no space. */
  lemma AdditionalPropertiesText(p: Printer)
    ensures Render(AdditionalProperties(["c"]), p) == "Should have no additional properties, found [c]"
    ensures Render(AdditionalProperties(["c", "d"]), p) == "Should have no additional properties, found [c,d]"
  {
    assert Join(["c", "d"], ",") == "c,d" by {
      assert Join(["c", "d"][1..], ",") == "d";
    }
  }

  /** The type guard names the expected type and what the value was instead. */
  lemma WrongTypeText(p: Printer)
    ensures Render(WrongType(NullType, "number"), p) == "Value should have been a null but was of type number"
  {
  }

  /** An array given where an object is expected is named as an array, not as an object. */
  lemma WrongTypeArrayText(p: Printer)
    ensures Render(WrongType(ObjectType, "array"), p) == "Value should have been a object but was of type array"
  {
  }

  /** A length bound prints as its decimal number. */
  lemma LengthBoundText(p: Printer)
    ensures Render(BelowMinLength(2), p) == "Value should have a minimum length of 2 character(s)"
    ensures Render(TupleLength(12, 3), p) == "Should have tuple length 12 but was 3"
  {
    assert NatToString(2) == "2";
    assert NatToString(3) == "3";
    assert NatToString(12) == NatToString(1) + ['2'];
  }

  /** A string `enum` quotes each option. */
  lemma QuotedEnumText(p: Printer)
    requires p.text(Str("abc")) == "abc" && p.text(Str("def")) == "def"
    ensures Render(NotOneOf(Quoted, [Str("abc"), Str("def")]), p) == "Value should have been one of ['abc', 'def']"
  {
    var os := [Str("abc"), Str("def")];
    assert OptionTexts(p, Quoted, os) == ["'abc'", "'def'"] by {
      assert "'" + p.text(os[0]) + "'" == "'abc'";
      assert OptionTexts(p, Quoted, os[1..]) == ["'def'"] by {
        assert "'" + p.text(os[1..][0]) + "'" == "'def'";
        assert OptionTexts(p, Quoted, os[2..]) == [];
      }
    }
    assert Join(["'abc'", "'def'"], ", ") == "'abc', 'def'" by {
      assert Join(["'abc'", "'def'"][1..], ", ") == "'def'";
    }
  }
}
