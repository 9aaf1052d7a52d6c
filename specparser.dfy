/**
 The substitution scanner shared by both passes, as a reference function
 and as the loop that the translator runs, and the scanner run with the
 computed table.
 */
module SpecParser {
  import opened Specifications

  /**
   Left to right, one character of lookahead: `%` followed by a key of
   `specs` becomes that key's text and both characters are consumed; any
   other character, including a `%` followed by a non-key or a `%` in the
   last position, is copied and the scan moves on by one.
   */
  function Substitute(f: string, specs: map<char, string>): string
    decreases |f|
  {
    if |f| == 0 then ""
    else if |f| == 1 then f
    else if f[0] == '%' && f[1] in specs then specs[f[1]] + Substitute(f[2..], specs)
    else [f[0]] + Substitute(f[1..], specs)
  }

  /** The scanner as written: an index that a match advances a second time, and a growing buffer. */
  method ParseFormat(f: string, specs: map<char, string>) returns (r: string)
    ensures r == Substitute(f, specs)
  {
    var buf := "";
    var i := 0;
    while i < |f|
      invariant 0 <= i <= |f|
      invariant buf + Substitute(f[i..], specs) == Substitute(f, specs)
    {
      if i + 1 == |f| {
        buf := buf + [f[i]];
        assert f[i..] == [f[i]];
        break;
      }
      if f[i] == '%' {
        if f[i + 1] in specs {
          buf := buf + specs[f[i + 1]];
          assert f[i..][2..] == f[i + 2..];
          i := i + 1;
        } else {
          buf := buf + [f[i]];
          assert f[i..][1..] == f[i + 1..];
        }
      } else {
        buf := buf + [f[i]];
        assert f[i..][1..] == f[i + 1..];
      }
      i := i + 1;
    }
    r := buf;
  }

  /** The scanner run over already rendered text with the computed table of `t`. */
  method SecondaryFormat(t: DateTime, formattedTime: string) returns (r: string)
    requires IsoYearSliceable(t)
    ensures r == Substitute(formattedTime, SecondaryTable(t))
  {
    var specs := GetSecondarySpecs(t);
    r := ParseFormat(formattedTime, specs);
  }

  /** No `%` in `f` is followed by a key of `specs`. */
  predicate NoVerbs(f: string, specs: map<char, string>)
  {
    forall j :: 0 <= j < |f| - 1 && f[j] == '%' ==> f[j + 1] !in specs
  }

  /** Text without verbs of the table comes out unchanged. */
  lemma {:induction false} SubstituteNoVerbs(f: string, specs: map<char, string>)
    requires NoVerbs(f, specs)
    ensures Substitute(f, specs) == f
    decreases |f|
  {
    if |f| >= 2 {
      assert NoVerbs(f[1..], specs) by {
        forall j | 0 <= j < |f[1..]| - 1 && f[1..][j] == '%'
          ensures f[1..][j + 1] !in specs
        {
          assert f[j + 1] == '%';
        }
      }
      SubstituteNoVerbs(f[1..], specs);
      assert f == [f[0]] + f[1..];
    }
  }

  /** An input without `%` is returned character for character. */
  lemma {:induction false} NoPercentUnchanged(f: string, specs: map<char, string>)
    requires '%' !in f
    ensures Substitute(f, specs) == f
  {
    SubstituteNoVerbs(f, specs);
  }

  /** With an empty table every `%` is copied literally. */
  lemma {:induction false} EmptyTableUnchanged(f: string)
    ensures Substitute(f, map[]) == f
  {
    SubstituteNoVerbs(f, map[]);
  }

  /** A verb of the table is replaced and both of its characters are consumed. */
  lemma VerbReplaced(c: char, rest: string, specs: map<char, string>)
    requires c in specs
    ensures Substitute(['%', c] + rest, specs) == specs[c] + Substitute(rest, specs)
  {
    assert (['%', c] + rest)[2..] == rest;
  }

  /** A `%` before a non-key is copied, and the next character is scanned afresh. */
  lemma UnknownVerbCopied(c: char, rest: string, specs: map<char, string>)
    requires c !in specs
    ensures Substitute(['%', c] + rest, specs) == "%" + Substitute([c] + rest, specs)
  {
    assert (['%', c] + rest)[1..] == [c] + rest;
  }

  /** The two-character input of a key yields exactly that key's text. */
  lemma SingleVerb(c: char, specs: map<char, string>)
    requires c in specs
    ensures Substitute(['%', c], specs) == specs[c]
  {
    VerbReplaced(c, "", specs);
    assert ['%', c] + "" == ['%', c];
  }

  /**
   The scan splits at any boundary not preceded by `%`: nothing can match
   across it, because only a `%` looks ahead.
   */
  lemma {:induction false} SubstituteConcat(a: string, b: string, specs: map<char, string>)
    requires a == [] || a[|a| - 1] != '%'
    ensures Substitute(a + b, specs) == Substitute(a, specs) + Substitute(b, specs)
    decreases |a|
  {
    if |a| == 0 {
      assert a + b == b;
    } else if |a| == 1 {
      PlainCharStep(a[0], b, specs);
    } else if a[0] == '%' && a[1] in specs {
      SubstituteConcat(a[2..], b, specs);
      MatchedStep(a, b, specs);
    } else {
      SubstituteConcat(a[1..], b, specs);
      CopiedStep(a, b, specs);
    }
  }

  lemma PlainCharStep(x: char, b: string, specs: map<char, string>)
    requires x != '%'
    ensures Substitute([x] + b, specs) == [x] + Substitute(b, specs)
  {
    if |b| > 0 {
      assert ([x] + b)[1..] == b;
    } else {
      assert [x] + b == [x];
    }
  }

  lemma MatchedStep(a: string, b: string, specs: map<char, string>)
    requires |a| >= 2 && a[0] == '%' && a[1] in specs
    ensures Substitute(a + b, specs) == specs[a[1]] + Substitute(a[2..] + b, specs)
    ensures Substitute(a, specs) == specs[a[1]] + Substitute(a[2..], specs)
  {
    assert (a + b)[2..] == a[2..] + b;
  }

  lemma CopiedStep(a: string, b: string, specs: map<char, string>)
    requires |a| >= 2 && !(a[0] == '%' && a[1] in specs)
    ensures Substitute(a + b, specs) == [a[0]] + Substitute(a[1..] + b, specs)
    ensures Substitute(a, specs) == [a[0]] + Substitute(a[1..], specs)
  {
    assert (a + b)[1..] == a[1..] + b;
  }

  /** A prefix without `%` is copied ahead of the scan of the rest. */
  lemma PlainPrefix(a: string, b: string, specs: map<char, string>)
    requires '%' !in a
    ensures Substitute(a + b, specs) == a + Substitute(b, specs)
  {
    SubstituteConcat(a, b, specs);
    NoPercentUnchanged(a, specs);
  }

  /** A trailing lone `%` is copied as it is; the scan never reads past the end. */
  lemma TrailingPercent(a: string, specs: map<char, string>)
    requires a == [] || a[|a| - 1] != '%'
    ensures Substitute(a + "%", specs) == Substitute(a, specs) + "%"
  {
    SubstituteConcat(a, "%", specs);
  }

  /** Every verb of the static table translates to its layout fragment. */
  lemma StaticVerbTranslated(c: char)
    requires c in ConvSpecs
    ensures Substitute(['%', c], ConvSpecs) == ConvSpecs[c]
  {
    SingleVerb(c, ConvSpecs);
  }

  /** Every computed verb survives the static pass as `%` and the verb. */
  lemma ComputedVerbPassesStaticTable(c: char)
    requires c in ComputedVerbs
    ensures Substitute(['%', c], ConvSpecs) == ['%', c]
  {
    VerbTablesDisjoint();
    assert ['%', c][1..] == [c];
  }

  /** Expectations of the repository's scanner tests for two of the combined representations and `%%`. */
  lemma StaticTableExamples()
    ensures Substitute("%c", ConvSpecs) == "Mon Jan 02 15:04:05 2006"
    ensures Substitute("%+", ConvSpecs) == "Mon Jan 02 15:04:05 MST 2006"
    ensures Substitute("%%", ConvSpecs) == "%"
  {
    StaticVerbTranslated('c');
    StaticVerbTranslated('+');
    StaticVerbTranslated('%');
  }

  /** An unknown verb passes through: its `%` is copied and the verb is scanned as plain text. */
  lemma UnknownVerbExamples()
    ensures Substitute("%q", ConvSpecs) == "%q"
    ensures Substitute("%q%%", ConvSpecs) == "%q%"
  {
    assert 'q' !in StaticVerbs;
    assert ConvSpecs['%'] == "%";
    UnknownVerbIn("%", ConvSpecs);
  }

  lemma UnknownVerbIn(percent: string, specs: map<char, string>)
    requires 'q' !in specs && '%' in specs && specs['%'] == percent
    ensures Substitute("%q", specs) == "%q"
    ensures Substitute("%q%%", specs) == "%q" + percent
  {
    UnknownVerbCopied('q', "", specs);
    assert "%q" == ['%', 'q'] + "";
    UnknownVerbCopied('q', "%%", specs);
    assert "%q%%" == ['%', 'q'] + "%%";
    SingleVerb('%', specs);
    PlainPrefix("q", "%%", specs);
    assert "q%%" == "q" + "%%";
  }

  /** A matched `%%` is not rescanned, and a lone `%` is copied. */
  lemma PercentExamples()
    ensures Substitute("%%Y", ConvSpecs) == "%Y"
    ensures Substitute("%", ConvSpecs) == "%"
  {
    assert ConvSpecs['%'] == "%";
    VerbReplaced('%', "Y", ConvSpecs);
    assert "%%Y" == ['%', '%'] + "Y";
  }

  /** A date in the ISO 8601 form: verbs and literal separators interleaved. */
  lemma IsoDateTranslated()
    ensures Substitute("%Y-%m-%d", ConvSpecs) == "2006-01-02"
  {
    SingleVerb('d', ConvSpecs);
    PlainPrefix("-", "%d", ConvSpecs);
    assert "-%d" == "-" + "%d";
    VerbReplaced('m', "-%d", ConvSpecs);
    assert "%m-%d" == ['%', 'm'] + "-%d";
    PlainPrefix("-", "%m-%d", ConvSpecs);
    assert "-%m-%d" == "-" + "%m-%d";
    VerbReplaced('Y', "-%m-%d", ConvSpecs);
    assert "%Y-%m-%d" == ['%', 'Y'] + "-%m-%d";
  }
}
