/** The static calibration table of `get_compounds`: five parallel columns
    (compound, expected retention time, intercept, slope, detector label)
    zipped into one entry per compound. */
module Calibration {
  import opened Options

  /** The two detector channels of the chromatograph. */
  datatype Detector = Back | Front

  /** One calibration entry. The detector is kept as the text label the table
      holds, so that a label naming neither channel can be represented. */
  datatype Entry = Entry(compound: string, rt: real, yInt: real, slope: real, detector: string)

  /** The channel a detector label names, if any. */
  function Channel(name: string): (d: Option<Detector>)
    ensures d == Some(Back) <==> name == "Back"
    ensures d == Some(Front) <==> name == "Front"
  {
    if name == "Back" then Some(Back)
    else if name == "Front" then Some(Front)
    else None
  }

  const Size: nat := 46

  // Each column below is the corresponding list of `get_compounds`, written as
  // concatenated chunks of eight so that the verifier can index it cheaply.

  const CompoundNames: seq<string> :=
    ["Ethane", "Ethylene", "Propane", "Propylene", "Acetylene", "Trans-2-butene", "1-Butene", "i-butane"] +
    ["Cyclopentane", "Isopentane", "n-pentane", "1-pentene", "Trans-2-pentene", "2,2-dimethyl-butane", "2,3-dimethyl-butane", "2-methylpentane"] +
    ["Isoprene", "Hexane", "Methyl-cyclopentane", "2,4-dimethylpentane", "2-methylhexane", "Benzene", "Cyclohexane", "2,3-dimethyl-pentane"] +
    ["3-methylhexane", "Heptane", "2,3,4-trimethylpentane", "Toluene", "2-methylheptane", "n-octane", "Ethylbenzene", "isooctane"] +
    ["mp-xylene", "Styrene", "o-xylene", "Propyl-benzene", "Nonane", "4-Ethyltoluene", "1,3,5-TMB", "2-ethyltoluene"] +
    ["1,2,4-TMB", "Decane", "1,23,TMB", "1,3-diethyl benzene", "1,4-diethyl benzene", "undecane"]

  const RetentionTimes: seq<real> :=
    [9.552, 9.596, 9.693, 13.108, 14.95, 15.606, 20.511, 21.772] +
    [21.895, 22.49, 23.467, 24.878, 25.784, 26.209, 27.511, 27.603] +
    [28.059, 15.215, 15.737, 16.051, 16.197, 16.527, 17.78, 19.035] +
    [20.476, 20.727, 21.169, 21.554, 22.78, 25.216, 25.588, 26.371] +
    [26.611, 27.183, 27.952, 28.5535, 29.155, 29.728, 30.168, 30.738] +
    [31.097, 31.844, 32.724, 32.981, 34.659, 37.87]

  const Intercepts: seq<real> :=
    [0.464654348, -1.564774348, -0.105978261, 0.485695652, 0.000478261, -5.85432, -1.427391304, -1.303391304] +
    [-1.556898261, -0.827953043, 7.649956522, 2.269217391, -1.647565217, -3.003652174, 8.501695652, -79.24636957] +
    [0.010310872, 0.883981304, -1.031217391, 0.629946957, 2.724028696, -0.266615652, 3.297102174, 2.497007391] +
    [-3.538778261, 8.593491304, -2.240989225, -3.85139687, 1.670566087, 5.617443478, 0.580217391, 1.127471304] +
    [-7.632040435, 1.274698696, 8.40189414, 0.152173913, 0.892750087, 2.401063043, 0.808134348, 1.819353119] +
    [0.150913043, 5.066173913, 0.669321739, 0.678695652, 1.710173913, 0.447521739]

  const Slopes: seq<real> :=
    [39.41618609, 57.04490739, 9.122931522, 23.9541287, 13.31210217, 52.671, 17.75965217, 13.32366261] +
    [59.27553261, 67.21774348, 9.644302957, 12.14508522, 14.23729043, 9.618815217, 39.246224348, 93.97274891] +
    [63.82877242, 154.71614087, 22.62563478, 14.87566435, 20.85892717, 32.74605217, 4.433768478, 4.439050174] +
    [38.463490435, 11.92473391, 36.503130311, 46.373871696, 7.416391304, 40.509308696, 18.538845217, 9.654591304] +
    [25.476620652, 5.106779348, 8.064055894, 12.22304348, 8.525983304, 18.22815652, 45.413045217, 8.673984628] +
    [115.732791304, 10.442743478, 11.50169217, 10.104805435, 16.287812174, 10.44833043]

  const DetectorLabels: seq<string> :=
    ["Back", "Back", "Back", "Back", "Back", "Back", "Back", "Back"] +
    ["Back", "Back", "Back", "Back", "Back", "Back", "Back", "Back"] +
    ["Back", "Front", "Front", "Front", "Front", "Front", "Front", "Front"] +
    ["Front", "Front", "Front", "Front", "Front", "Front", "Front", "Front"] +
    ["Front", "Front", "Front", "Front", "Front", "Front", "Front", "Front"] +
    ["Front", "Front", "Front", "Front", "Front", "Front"]

  /** The table as `get_compounds` builds it: row i takes element i of every column. */
  function Table(): (t: seq<Entry>)
    ensures |t| == Size
    ensures forall i :: 0 <= i < Size ==>
      && t[i].compound == CompoundNames[i] && t[i].rt == RetentionTimes[i] && t[i].yInt == Intercepts[i]
      && t[i].slope == Slopes[i] && t[i].detector == DetectorLabels[i]
  {
    seq(Size, i requires 0 <= i < Size =>
      Entry(CompoundNames[i], RetentionTimes[i], Intercepts[i], Slopes[i], DetectorLabels[i]))
  }

  lemma SlopeColumnPositive()
    ensures forall i :: 0 <= i < |Slopes| ==> Slopes[i] > 0.0
  {
  }

  lemma DetectorColumnOrdered()
    ensures |DetectorLabels| == Size
    ensures forall i :: 0 <= i < 17 ==> DetectorLabels[i] == "Back"
    ensures forall i :: 17 <= i < Size ==> DetectorLabels[i] == "Front"
  {
  }

  lemma NamesDistinctFromRow0()
    ensures forall i, j :: 0 <= i < 8 && i < j < |CompoundNames| ==> CompoundNames[i] != CompoundNames[j]
  {
  }

  lemma NamesDistinctFromRow8()
    ensures forall i, j :: 8 <= i < 16 && i < j < |CompoundNames| ==> CompoundNames[i] != CompoundNames[j]
  {
  }

  lemma NamesDistinctFromRow16()
    ensures forall i, j :: 16 <= i < 24 && i < j < |CompoundNames| ==> CompoundNames[i] != CompoundNames[j]
  {
  }

  lemma NamesDistinctFromRow24()
    ensures forall i, j :: 24 <= i < 32 && i < j < |CompoundNames| ==> CompoundNames[i] != CompoundNames[j]
  {
  }

  lemma NamesDistinctFromRow32()
    ensures forall i, j :: 32 <= i < 40 && i < j < |CompoundNames| ==> CompoundNames[i] != CompoundNames[j]
  {
  }

  lemma NamesDistinctFromRow40()
    ensures forall i, j :: 40 <= i < 48 && i < j < |CompoundNames| ==> CompoundNames[i] != CompoundNames[j]
  {
  }

  /** The name column has no repeats, checked eight rows at a time. */
  lemma NameColumnDistinct()
    ensures forall i, j :: 0 <= i < j < |CompoundNames| ==> CompoundNames[i] != CompoundNames[j]
  {
    NamesDistinctFromRow0();
    NamesDistinctFromRow8();
    NamesDistinctFromRow16();
    NamesDistinctFromRow24();
    NamesDistinctFromRow32();
    NamesDistinctFromRow40();
  }

  /** Every slope of the table is strictly positive, so inverting a curve never divides by zero. */
  lemma SlopesPositive()
    ensures forall i :: 0 <= i < |Table()| ==> Table()[i].slope > 0.0
  {
    SlopeColumnPositive();
  }

  /** Every label names a channel, and the Back entries all come before the Front ones. */
  lemma BackBeforeFront()
    ensures forall i :: 0 <= i < |Table()| ==> Channel(Table()[i].detector).Some?
    ensures forall i, j :: 0 <= i < j < |Table()| && Table()[j].detector == "Back" ==> Table()[i].detector == "Back"
  {
    DetectorColumnOrdered();
  }

  /** No two entries share a compound name. */
  lemma NamesDistinct()
    ensures forall i, j :: 0 <= i < j < |Table()| ==> Table()[i].compound != Table()[j].compound
  {
    NameColumnDistinct();
  }
}
