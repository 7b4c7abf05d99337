/**
 * How the three versions of the converter differ where they do the same
 * job: identifier normalisation and the membership test of the offline
 * search. Column selection and the download URL do not differ: each
 * version's AddColumns is specified by Hgnc.SelectColumns and each URL by
 * Hgnc.ColumnParams.
 */
module VersionDifferences {
  import opened Wrappers
  import opened Text
  import opened Hgnc
  import V1 = FunctionsV1
  import V2 = GeneLookupV2
  import V3 = GeneLookupV3

  // ---------------------------------------------------------------------------
  // transform_string
  // ---------------------------------------------------------------------------

  /** The first version's normalised string is the second version's normalised value. */
  lemma FirstTwoNormaliseAlike(s: string)
    ensures V1.TransformString(s) == V2.TransformString(s).value
  {
    if !StartsWith(s, "ENSG") && StartsWith(s, "HGNC:") {
      HgncFieldShape(s);
    }
  }

  /** The second and third versions classify every string alike; only the normalised value differs. */
  lemma LastTwoClassifyAlike(s: string)
    ensures V2.TransformString(s).kind == V3.TransformString(s).kind
    ensures !StartsWith(s, "ENSG") && !StartsWith(s, "HGNC:") ==>
      V2.TransformString(s).value == V3.TransformString(s).value == s
  {
  }

  /**
   * For an Ensembl identifier, cutting at the first `.` (third version) and
   * stripping a trailing `.digits` (second version) agree exactly when the
   * identifier has no `.` or everything after its first `.` is digits.
   */
  lemma EnsemblNormalisations(s: string)
    requires StartsWith(s, "ENSG")
    ensures V2.TransformString(s).value == V3.TransformString(s).value
      <==> '.' !in s || IsDigits(After(s, '.'))
  {
    assert V2.TransformString(s).value == StripVersionSuffix(s);
    assert V3.TransformString(s).value == Before(s, '.');
    CutMatchesStrip(s);
  }

  /** Cutting at the first `.` removes what stripping the version suffix removes exactly when only digits follow the first `.`. */
  lemma CutMatchesStrip(s: string)
    ensures StripVersionSuffix(s) == Before(s, '.') <==> '.' !in s || IsDigits(After(s, '.'))
  {
    match LastIndexOf(s, '.')
    case None =>
    case Some(last) =>
      var first := IndexOf(s, '.').value;
      assert Before(s, '.') == s[..first] && After(s, '.') == s[first + 1..];
      if IsDigits(s[first + 1..]) {
        VersionSuffixLast(s, first);
      } else if IsDigits(s[last + 1..]) {
        assert last != first;
        assert |s[..last]| != |s[..first]|;
      } else {
        assert |s[..first]| < |s|;
      }
  }

  /** `ENSG1.2.3`: the third version keeps `ENSG1`, the second `ENSG1.2`. */
  lemma EnsemblExample(s: string)
    requires s == "ENSG1.2.3"
    ensures V3.TransformString(s).value == "ENSG1"
    ensures V2.TransformString(s).value == "ENSG1.2"
  {
    assert StartsWith(s, "ENSG");
    assert VersionSuffixAt(s, 7) by { assert s[8..] == "3"; }
    assert s[..7] == "ENSG1.2";
    var r := V3.TransformString(s).value;
    assert StartsWith(s, r) && '.' !in r && (|r| < |s| ==> s[|r|] == '.');
    assert s[..|r|] == r && s[5] == '.';
    assert r == s[..5];
  }

  /** A version suffix goes only when digits follow the last `.`: `ENSG1.2` loses `.2`, `ENSG1.x` keeps `.x`. */
  lemma EnsemblSuffixExample()
    ensures V2.TransformString("ENSG1.2").value == "ENSG1"
    ensures V2.TransformString("ENSG1.x").value == "ENSG1.x"
  {
    var t := "ENSG1.2";
    assert StartsWith(t, "ENSG");
    assert VersionSuffixAt(t, 5) by { assert t[6..] == "2"; }
    var u := "ENSG1.x";
    assert StartsWith(u, "ENSG");
    forall i: nat ensures !VersionSuffixAt(u, i) {
      if i < |u| && u[i] == '.' {
        assert i == 5;
        assert u[6..][0] == 'x';
      }
    }
  }

  /**
   * For an HGNC identifier, everything after the first `:` (third version)
   * and the field between the first and second `:` (second version) agree
   * exactly when there is no second `:`.
   */
  lemma HgncNormalisations(s: string)
    requires StartsWith(s, "HGNC:")
    ensures V2.TransformString(s).value == V3.TransformString(s).value <==> ':' !in s[5..]
  {
    assert !StartsWith(s, "ENSG") by { assert s[3] == 'C'; }
    HgncField(s);
    var field := Before(s[5..], ':');
    assert V2.TransformString(s).value == field;
    var v3 := V3.TransformString(s).value;
    assert "HGNC:" + v3 == s;
    assert s[5..] == ("HGNC:" + v3)[5..] == v3;
    if ':' in s[5..] {
      assert |field| < |s[5..]|;
    }
  }

  /** `HGNC:5:x`: the third version keeps `5:x`. */
  lemma HgncExampleLast(s: string)
    requires s == "HGNC:5:x"
    ensures V3.TransformString(s).value == "5:x"
  {
    assert s[..5] == "HGNC:" && s[..4][0] == 'H';
    var v3 := V3.TransformString(s).value;
    assert "HGNC:" + v3 == s;
    assert v3 == s[5..];
  }

  /** `HGNC:5:x`: the first two versions keep `5`. */
  lemma HgncExampleFirst(s: string)
    requires s == "HGNC:5:x"
    ensures V2.TransformString(s).value == "5" && V1.TransformString(s) == "5"
  {
    assert s[..5] == "HGNC:" && s[..4][0] == 'H';
    FirstTwoNormaliseAlike(s);
    var r := V1.TransformString(s);
    assert s[..5 + |r|] == "HGNC:" + r;
    assert s[6] == ':' && s[5] == '5';
    assert |r| == 1;
  }

  // ---------------------------------------------------------------------------
  // The membership test of the offline search
  // ---------------------------------------------------------------------------

  /**
   * On a cell written the way the registry writes lists, the third
   * version's test finds what the first two find, and also the whole cell.
   */
  lemma MembershipOnRegistryCells(items: seq<string>, name: string)
    requires |items| > 0 && forall p :: p in items ==> ',' !in p && Stripped(p)
    requires Join(items, ", ") != ""
    ensures V3.ContainsGene(Some(Join(items, ", ")), name)
      <==> InSplitCell(Some(Join(items, ", ")), name) || name == Join(items, ", ")
  {
    V3.ContainsGeneOfJoined(items, name);
    InSplitCellOfJoined(items, name);
  }

  /**
   * The first two versions compare exact `", "`-items: a cell `TP53,P53`
   * (no space) does not hold `P53` for them.
   */
  lemma UnspacedExampleFirst(s: string)
    requires s == "TP53,P53"
    ensures !InSplitCell(Some(s), "P53")
  {
    NoSpacedSeparator(s);
  }

  /** The third version strips `,`-items, and finds `P53` in `TP53,P53`. */
  lemma UnspacedExampleLast(s: string, name: string)
    requires s == "TP53,P53" && name == "P53"
    ensures V3.ContainsGene(Some(s), name)
  {
    assert s == "TP53" + "," + name;
    assert Stripped(name) && ',' !in name && ',' !in "TP53";
    SecondOfPair("TP53", name);
  }

  /** The third version finds the second item of a cell `a,b` written without a space. */
  lemma SecondOfPair(a: string, b: string)
    requires ',' !in a && ',' !in b && Stripped(b)
    ensures V3.ContainsGene(Some(a + "," + b), b)
  {
    var cell := a + "," + b;
    assert Split(cell, ",")[1] == b by {
      var pair := [a, b];
      assert Join(pair, ",") == cell;
      SplitJoin(pair, ",");
    }
    assert Strip(b) == b by {
      StripAfterSpaces("", b);
      assert "" + b == b;
    }
    assert |cell| > 0;
    assert TruthyText(Some(cell));
    assert Split(cell, ",")[1] in Split(Some(cell).value, ",");
  }

  /** A string without a space splits on `", "` into itself alone. */
  lemma NoSpacedSeparator(s: string)
    requires ' ' !in s
    ensures Split(s, ", ") == [s]
  {
    forall k: nat ensures !OccursAt(s, ", ", k) {
      if k + 2 <= |s| {
        assert s[k..k + 2][1] == s[k + 1];
      }
    }
  }

  /** With the registry's `", "` spacing, every version finds `P53` in `TP53, P53`. */
  lemma SpacedExample()
    ensures V3.ContainsGene(Some("TP53, P53"), "P53") && InSplitCell(Some("TP53, P53"), "P53")
  {
    var items := ["TP53", "P53"];
    assert Join(items, ", ") == "TP53, P53";
    assert forall p :: p in items ==> ',' !in p && Stripped(p);
    MembershipOnRegistryCells(items, "P53");
    InSplitCellOfJoined(items, "P53");
  }
}
