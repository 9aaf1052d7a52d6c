/**
 The public formatting entry point: the static pass produces a Go layout,
 the Go rendering engine renders the value with it, and the computed pass
 rewrites what is left. The rendering engine is not part of this model; it
 is passed in as `render`.
 */
module Format {
  import opened Specifications
  import opened SpecParser

  method Format(format: string, t: DateTime, render: (string, DateTime) -> string) returns (r: string)
    requires IsoYearSliceable(t)
    ensures r == Substitute(render(Substitute(format, ConvSpecs), t), SecondaryTable(t))
  {
    var layout := ParseFormat(format, ConvSpecs);
    var timeString := render(layout, t);
    r := SecondaryFormat(t, timeString);
  }

  /**
   A computed verb reaches the second pass intact and is replaced there by
   its computed text, provided the rendering engine copies `%` and the verb
   as literal text.
   */
  lemma ComputedVerbFormatted(c: char, t: DateTime, render: (string, DateTime) -> string)
    requires c in ComputedVerbs && IsoYearSliceable(t)
    requires render(['%', c], t) == ['%', c]
    ensures c in SecondaryTable(t)
    ensures Substitute(render(Substitute(['%', c], ConvSpecs), t), SecondaryTable(t)) == SecondaryTable(t)[c]
  {
    ComputedVerbPassesStaticTable(c);
    SecondaryTableKeys(t);
    SingleVerb(c, SecondaryTable(t));
  }

  /**
   An escaped percent before a computed verb is not protected: `%%j` leaves
   the first pass as `%j`, which the second pass replaces by the year-day,
   where strftime would print `%j`.
   */
  lemma EscapedPercentRescanned(t: DateTime, render: (string, DateTime) -> string)
    requires IsoYearSliceable(t)
    requires render("%j", t) == "%j"
    ensures Substitute(render(Substitute("%%j", ConvSpecs), t), SecondaryTable(t)) == SecondaryTable(t)['j']
  {
    VerbReplaced('%', "j", ConvSpecs);
    assert "%%j" == ['%', '%'] + "j";
    assert Substitute("%%j", ConvSpecs) == "%j";
    SingleVerb('j', SecondaryTable(t));
  }
}
