/** What cleaning a breadcrumb name leaves of it. */
module NameCleaning {
  import opened Text
  import opened ActiveChain

  /** `s` starts with a `%`, `flags` flag characters, `marks` length marks and a conversion letter. */
  predicate SpecOf(s: string, flags: nat, marks: nat) {
    && |s| > 1 + flags + marks && s[0] == '%'
    && (forall i :: 1 <= i < 1 + flags ==> s[i] in "-+#.0123456789")
    && (forall i :: 1 + flags <= i < 1 + flags + marks ==> s[i] in "hlLz")
    && s[1 + flags + marks] in "diouxXeEfgGaAcsp%"
  }

  lemma {:induction false} MarksAre(s: string) returns (marks: nat)
    ensures MarksThenLetter(s) ==>
      marks < |s| && (forall i :: 0 <= i < marks ==> s[i] in "hlLz") && s[marks] in "diouxXeEfgGaAcsp%"
    decreases |s|
  {
    marks := 0;
    if MarksThenLetter(s) && IsLengthMark(s[0]) {
      var rest := MarksAre(s[1..]);
      marks := rest + 1;
      assert forall i :: 0 < i < marks ==> s[i] == s[1..][i - 1];
    }
  }

  lemma {:induction false} FlagsAre(s: string) returns (flags: nat, marks: nat)
    ensures FlagsThenLetter(s) ==> SpecOf("%" + s, flags, marks)
    decreases |s|
  {
    flags, marks := 0, 0;
    if FlagsThenLetter(s) {
      var whole := "%" + s;
      if IsFlag(s[0]) {
        var rest, more := FlagsAre(s[1..]);
        var inner := "%" + s[1..];
        flags, marks := rest + 1, more;
        assert forall i :: 1 < i < |whole| ==> whole[i] == inner[i - 1];
      } else {
        marks := MarksAre(s);
        assert forall i :: 0 < i < |whole| ==> whole[i] == s[i - 1];
      }
    }
  }

  lemma {:induction false} MarksEnough(s: string, marks: nat)
    requires marks < |s| && (forall i :: 0 <= i < marks ==> s[i] in "hlLz") && s[marks] in "diouxXeEfgGaAcsp%"
    ensures MarksThenLetter(s)
    decreases |s|
  {
    if marks > 0 {
      assert forall i :: 0 <= i < marks - 1 ==> s[1..][i] == s[i + 1];
      MarksEnough(s[1..], marks - 1);
    }
  }

  /** Behind its first flag a specifier is still one. */
  lemma {:induction false} SpecWithoutAFlag(s: string, flags: nat, marks: nat)
    requires SpecOf("%" + s, flags, marks) && flags > 0
    ensures s != "" && s[0] in "-+#.0123456789" && SpecOf("%" + s[1..], flags - 1, marks)
  {
    var whole, inner := "%" + s, "%" + s[1..];
    assert whole[1] == s[0];
    assert forall i :: 1 <= i < |inner| ==> inner[i] == whole[i + 1];
  }

  lemma {:induction false} MarksOfSpec(s: string, marks: nat)
    requires SpecOf("%" + s, 0, marks)
    ensures marks < |s| && (forall i :: 0 <= i < marks ==> s[i] in "hlLz") && s[marks] in "diouxXeEfgGaAcsp%"
  {
    var whole := "%" + s;
    assert forall i :: 0 <= i < |s| ==> s[i] == whole[i + 1];
  }

  lemma {:induction false} FlagsEnough(s: string, flags: nat, marks: nat)
    requires SpecOf("%" + s, flags, marks)
    ensures FlagsThenLetter(s)
    decreases |s|
  {
    if flags > 0 {
      SpecWithoutAFlag(s, flags, marks);
      FlagsEnough(s[1..], flags - 1, marks);
    } else {
      MarksOfSpec(s, marks);
      MarksEnough(s, marks);
    }
  }

  /** A specifier is a `%`, any flags, widths and precisions, any length marks, and a conversion letter. */
  lemma {:induction false} FormatSpecIff(s: string)
    ensures IsFormatSpec(s) <==> exists flags: nat, marks: nat :: SpecOf(s, flags, marks)
  {
    if s != "" && s[0] == '%' {
      assert s == "%" + s[1..];
      if IsFormatSpec(s) {
        var flags, marks := FlagsAre(s[1..]);
      }
      if flags: nat, marks: nat :| SpecOf(s, flags, marks) {
        FlagsEnough(s[1..], flags, marks);
      }
    }
  }

  /** What names are cut back over at their end. */
  lemma SeparatorsAre(c: char)
    ensures IsTrailing(c) <==> IsWhitespace(c) || c in "-:,;([/="
  {
  }

  /** A front of `s` with no specifier of `s` starting in it. */
  ghost predicate NoSpecIn(s: string, n: nat) {
    n <= |s| && forall i :: 0 <= i < n ==> !IsFormatSpec(s[i..])
  }

  lemma {:induction false} BeforeSpecIsLongest(s: string)
    ensures BeforeSpec(s) <= s && NoSpecIn(s, |BeforeSpec(s)|)
    ensures forall n: nat :: NoSpecIn(s, n) ==> n <= |BeforeSpec(s)|
    decreases |s|
  {
    if s == "" {
    } else if IsFormatSpec(s) {
      assert s[0..] == s;
    } else {
      BeforeSpecIsLongest(s[1..]);
      assert forall i :: 0 < i < |s| ==> s[i..] == s[1..][i - 1..];
      assert s[0..] == s;
      forall n: nat | NoSpecIn(s, n)
        ensures n <= |BeforeSpec(s)|
      {
        if n > 0 {
          assert NoSpecIn(s[1..], n - 1);
        }
      }
    }
  }

  lemma {:induction false} TrimEndIsLongest(s: string, p: char -> bool, n: nat)
    requires n <= |s| && (n > 0 ==> !p(s[n - 1]))
    ensures n <= |TrimEnd(s, p)|
    decreases |s|
  {
    if n < |s| && p(s[|s| - 1]) {
      TrimEndIsLongest(s[..|s| - 1], p, n);
    }
  }

  /** A front of a name that could be shown. */
  ghost predicate ShowableFront(name: string, n: nat) {
    NoSpecIn(name, n) && (n > 0 ==> !IsTrailing(name[n - 1]))
  }

  /** The cleaned name is the longest front of the trimmed name that no specifier starts in and that ends in no
      separator. */
  lemma {:induction false} CleanNameIsLongestFront(name: string)
    ensures var (s, r) := (Trim(name), CleanName(name));
      r <= s && ShowableFront(s, |r|) && forall n: nat :: ShowableFront(s, n) ==> n <= |r|
  {
    var s := Trim(name);
    var head := BeforeSpec(s);
    var cut := TrimEnd(head, IsTrailing);
    BeforeSpecIsLongest(s);
    TrimEndFacts(head, IsTrailing);
    TrimIsTrimmed(name);
    TrimOfTrimmed(cut);
    forall n: nat | ShowableFront(s, n)
      ensures n <= |cut|
    {
      TrimEndIsLongest(head, IsTrailing, n);
    }
  }
}
