/** The statistics line a client prints and the controller reads back. */
module Report {
  import opened Sums
  import opened Text
  import Statistics
  import opened Telemetry

  /** A double as far as printing is concerned: a finite value, or what the
      accumulator holds when it has seen no sample. */
  datatype Double = Finite(value: real) | Largest | Lowest | NotANumber

  /** How doubles are printed and read. `read` is the result of extracting the
      printed word, None when the extraction fails. */
  datatype Codec = Codec(show: Double -> string, read: string -> Option<real>)

  /** Every double prints as one word. */
  ghost predicate PrintsWords(codec: Codec) {
    forall d: Double :: IsWord(codec.show(d))
  }

  function Abs(x: real): real { if x < 0.0 then -x else x }

  /** Printing and reading x loses at most delta. */
  predicate Near(codec: Codec, delta: real, x: real) {
    var back := codec.read(codec.show(Finite(x)));
    back.Some? && Abs(back.value - x) <= delta
  }

  // ----- the accumulator's view of its samples -----

  function Least(xs: seq<real>): real
    requires xs != []
  {
    if |xs| == 1 then xs[0]
    else
      var m := Least(xs[..|xs| - 1]);
      if xs[|xs| - 1] < m then xs[|xs| - 1] else m
  }

  function Greatest(xs: seq<real>): real
    requires xs != []
  {
    if |xs| == 1 then xs[0]
    else
      var m := Greatest(xs[..|xs| - 1]);
      if xs[|xs| - 1] > m then xs[|xs| - 1] else m
  }

  function MinField(xs: seq<real>): Double { if xs == [] then Largest else Finite(Least(xs)) }
  function MaxField(xs: seq<real>): Double { if xs == [] then Lowest else Finite(Greatest(xs)) }
  function MeanField(xs: seq<real>): Double { if xs == [] then NotANumber else Finite(Statistics.Mean(xs)) }
  function VarianceField(xs: seq<real>): Double {
    if xs == [] then Finite(0.0) else Finite(Statistics.Variance(xs))
  }

  /** The four statistics of a line survive printing to within delta. */
  predicate Legible(codec: Codec, delta: real, xs: seq<real>)
    requires xs != []
  {
    && Near(codec, delta, Least(xs))
    && Near(codec, delta, Greatest(xs))
    && Near(codec, delta, Statistics.Mean(xs))
    && Near(codec, delta, Statistics.Variance(xs))
  }

  // ----- printing -----

  /** Fields, each preceded by one space. */
  function Spaced(fields: seq<string>): string {
    if fields == [] then "" else " " + fields[0] + Spaced(fields[1..])
  }

  function Kind(c: Client): string {
    if !c.failed then "success" else "fail" + (if c.open then "-opened" else "")
  }

  function Fields(codec: Codec, samples: seq<real>, setup: Double): seq<string> {
    [PrintInt(|samples|),
     codec.show(MinField(samples)),
     codec.show(MaxField(samples)),
     codec.show(MeanField(samples)),
     codec.show(VarianceField(samples)),
     codec.show(setup)]
  }

  /** The line `get_stats` returns; `setup` is the connection setup time. */
  function StatsLine(codec: Codec, c: Client, setup: Double): string {
    Kind(c) + Spaced(Fields(codec, c.samples, setup))
  }

  lemma SpacedNext(prefix: string, f: seq<string>, i: nat)
    requires i < |f|
    ensures prefix + Spaced(f[i..]) == prefix + " " + f[i] + Spaced(f[i + 1..])
  {
    assert f[i..][1..] == f[i + 1..];
    assert Spaced(f[i..]) == " " + f[i] + Spaced(f[i + 1..]);
  }

  /** The line as it is printed, field after field. */
  lemma SpacedSix(kind: string, f: seq<string>)
    requires |f| == 6
    ensures kind + Spaced(f) ==
            kind + " " + f[0] + " " + f[1] + " " + f[2] + " " + f[3] + " " + f[4] + " " + f[5]
  {
    hide Spaced;
    var k1 := kind + " " + f[0];
    var k2 := k1 + " " + f[1];
    var k3 := k2 + " " + f[2];
    var k4 := k3 + " " + f[3];
    var k5 := k4 + " " + f[4];
    assert f[0..] == f;
    SpacedNext(kind, f, 0);
    SpacedNext(k1, f, 1);
    SpacedNext(k2, f, 2);
    SpacedNext(k3, f, 3);
    SpacedNext(k4, f, 4);
    SpacedNext(k5, f, 5);
    SpacedNil(k5 + " " + f[5], f[6..]);
  }

  lemma SpacedNil(prefix: string, f: seq<string>)
    requires f == []
    ensures prefix + Spaced(f) == prefix
  {
  }

  // ----- reading -----

  function ReadReal(codec: Codec, st: Stream): (Option<real>, Stream) {
    var (word, rest) := ReadWord(st);
    if word.None? then (None, rest)
    else
      var x := codec.read(word.value);
      (x, Stream(rest.rest, x.Some?))
  }

  /** What the controller extracts from a line and then uses. A number that cannot
      be extracted is 0. */
  datatype Decoded = Decoded(kind: string, count: int, mean: real, variance: real)

  function Decode(codec: Codec, line: string): Decoded {
    var (kind, s1) := ReadWord(Stream(line, true));
    var (count, s2) := ReadInt(s1);
    var (min, s3) := ReadReal(codec, s2);
    var (max, s4) := ReadReal(codec, s3);
    var (mean, s5) := ReadReal(codec, s4);
    var (variance, s6) := ReadReal(codec, s5);
    Decoded(kind.GetOr(""), count.GetOr(0), mean.GetOr(0.0), variance.GetOr(0.0))
  }

  // ----- reading back what was printed -----

  predicate AllWords(fields: seq<string>) {
    forall i :: 0 <= i < |fields| ==> IsWord(fields[i])
  }

  lemma SpacedShape(fields: seq<string>)
    requires AllWords(fields) && fields != []
    ensures Delimited(Spaced(fields)) && Delimited(Spaced(fields[1..]))
    ensures SkipSpaces(Spaced(fields)) == fields[0] + Spaced(fields[1..])
  {
    var tail := Spaced(fields[1..]);
    assert Spaced(fields) == " " + (fields[0] + tail);
    LeadingSpace(fields[0] + tail);
    assert (fields[0] + tail)[0] == fields[0][0];
  }

  lemma NextWord(fields: seq<string>)
    requires AllWords(fields) && fields != []
    ensures ReadWord(Stream(Spaced(fields), true)) == (Some(fields[0]), Stream(Spaced(fields[1..]), true))
  {
    var tail := Spaced(fields[1..]);
    SpacedShape(fields);
    ReadWordAppend(fields[0], tail);
    assert (fields[0] + tail)[0] == fields[0][0];
    assert SkipSpaces(fields[0] + tail) == fields[0] + tail;
  }

  lemma NextInt(fields: seq<string>, n: int)
    requires AllWords(fields) && fields != [] && fields[0] == PrintInt(n) && IsInt32(n)
    ensures ReadInt(Stream(Spaced(fields), true)) == (Some(n), Stream(Spaced(fields[1..]), true))
  {
    var tail := Spaced(fields[1..]);
    SpacedShape(fields);
    ReadIntPrint(n, tail);
    assert (fields[0] + tail)[0] == fields[0][0];
    assert SkipSpaces(fields[0] + tail) == fields[0] + tail;
  }

  /** The kind and the count always come back; the numbers come back as their words
      read, provided the words before them can be read. */
  lemma {:induction false} DecodeFields(codec: Codec, kind: string, fields: seq<string>, n: nat)
    requires IsWord(kind) && AllWords(fields) && |fields| == 6
    requires IsInt32(n) && fields[0] == PrintInt(n)
    ensures var d := Decode(codec, kind + Spaced(fields));
            && d.kind == kind
            && d.count == n
            && (codec.read(fields[1]).Some? && codec.read(fields[2]).Some?
                && codec.read(fields[3]).Some? && codec.read(fields[4]).Some? ==>
                  && d.mean == codec.read(fields[3]).value
                  && d.variance == codec.read(fields[4]).value)
  {
    hide ReadWord, ReadInt;
    var f1, f2, f3, f4, f5 := fields[1..], fields[2..], fields[3..], fields[4..], fields[5..];
    assert f1[1..] == f2 && f2[1..] == f3 && f3[1..] == f4 && f4[1..] == f5;
    SpacedShape(fields);
    ReadWordAppend(kind, Spaced(fields));
    NextInt(fields, n);
    NextWord(f1);
    NextWord(f2);
    NextWord(f3);
    NextWord(f4);
  }

  /** Reading back a client's line: whether it failed, and how many samples it has,
      whatever the samples are; and, if it has any, its mean and variance to within
      the precision of the printed numbers. */
  lemma DecodeStats(codec: Codec, c: Client, setup: Double, delta: real)
    requires PrintsWords(codec) && |c.samples| <= INT_MAX
    ensures var d := Decode(codec, StatsLine(codec, c, setup));
            && (d.kind == "success" <==> !c.failed)
            && d.count == |c.samples|
            && (c.samples != [] && Legible(codec, delta, c.samples) ==>
                  && Abs(d.mean - Statistics.Mean(c.samples)) <= delta
                  && Abs(d.variance - Statistics.Variance(c.samples)) <= delta)
  {
    hide Decode, Least, Greatest, Statistics.Mean, Statistics.Variance;
    PrintIntIsWord(|c.samples|);
    assert IsWord(Kind(c)) && (Kind(c) == "success" <==> !c.failed) by {
      assert "success"[0] == 's' && ("fail" + "-opened")[0] == ("fail" + "")[0] == 'f';
    }
    DecodeFields(codec, Kind(c), Fields(codec, c.samples, setup), |c.samples|);
  }

  // ----- the line, word by word -----

  /** The first n words that can be read from a stream. */
  function Words(st: Stream, n: nat): seq<string>
    decreases n
  {
    if n == 0 then []
    else
      var (word, rest) := ReadWord(st);
      if word.None? then [] else [word.value] + Words(rest, n - 1)
  }

  lemma {:induction false} SpacedWords(fields: seq<string>)
    requires AllWords(fields)
    ensures Words(Stream(Spaced(fields), true), |fields|) == fields
  {
    if fields != [] {
      NextWord(fields);
      SpacedWords(fields[1..]);
    }
  }

  lemma LineWords(kind: string, fields: seq<string>)
    requires IsWord(kind) && AllWords(fields) && fields != []
    ensures Words(Stream(kind + Spaced(fields), true), |fields| + 1) == [kind] + fields
  {
    SpacedShape(fields);
    ReadWordAppend(kind, Spaced(fields));
    SpacedWords(fields);
  }

  lemma {:induction false} LeastOf(xs: seq<real>)
    requires xs != []
    ensures Least(xs) in xs && forall x :: x in xs ==> Least(xs) <= x
  {
    if |xs| > 1 {
      var k := |xs| - 1;
      LeastOf(xs[..k]);
      assert xs == xs[..k] + [xs[k]];
    }
  }

  lemma {:induction false} GreatestOf(xs: seq<real>)
    requires xs != []
    ensures Greatest(xs) in xs && forall x :: x in xs ==> x <= Greatest(xs)
  {
    if |xs| > 1 {
      var k := |xs| - 1;
      GreatestOf(xs[..k]);
      assert xs == xs[..k] + [xs[k]];
    }
  }

  /** The seven words of a line: the kind, which tells failed clients that were open from
      those that were not; the number of samples; the smallest and the largest sample; the
      mean; the variance; the setup time. */
  lemma LineInWords(codec: Codec, c: Client, setup: Double) returns (least: real, greatest: real)
    requires PrintsWords(codec)
    ensures var ws := Words(Stream(StatsLine(codec, c, setup), true), 7);
            && |ws| == 7
            && ws[0] == (if !c.failed then "success" else if c.open then "fail-opened" else "fail")
            && ws[1] == PrintInt(|c.samples|)
            && (c.samples != [] ==>
                  && ws[2] == codec.show(Finite(least)) && ws[3] == codec.show(Finite(greatest))
                  && ws[4] == codec.show(Finite(Statistics.Mean(c.samples)))
                  && ws[5] == codec.show(Finite(Statistics.Variance(c.samples))))
            && (c.samples == [] ==>
                  && ws[2] == codec.show(Largest) && ws[3] == codec.show(Lowest)
                  && ws[4] == codec.show(NotANumber) && ws[5] == codec.show(Finite(0.0)))
            && ws[6] == codec.show(setup)
    ensures c.samples != [] ==>
              && least in c.samples && greatest in c.samples
              && forall x :: x in c.samples ==> least <= x <= greatest
  {
    hide Words, Spaced, Least, Greatest, Statistics.Mean, Statistics.Variance;
    least, greatest := 0.0, 0.0;
    if c.samples != [] {
      least, greatest := Least(c.samples), Greatest(c.samples);
      LeastOf(c.samples);
      GreatestOf(c.samples);
    }
    PrintIntIsWord(|c.samples|);
    KindText(c);
    LineWords(Kind(c), Fields(codec, c.samples, setup));
  }

  lemma KindText(c: Client)
    ensures Kind(c) == (if !c.failed then "success" else if c.open then "fail-opened" else "fail")
    ensures IsWord(Kind(c))
  {
    assert "fail" + "-opened" == "fail-opened" && "fail" + "" == "fail";
  }
}
