/**
 * `generate_variant_with_validation`: a requested outer-radius reduction is
 * validated on the combined base geometry; an invalid request falls back to
 * the suggested reduction when there is one, and is refused otherwise; the
 * reduction finally applied drives the blackhole rewrite, the nozzle
 * adjustment and the rewrite of the detector file.
 */
module Variant {
  import opened Wrappers
  import opened Text
  import opened Numerals
  import opened Geometry
  import opened Interpolation
  import opened Validation
  import opened Blackhole
  import opened NozzleAdjust
  import opened GeometryFile
  import opened BlackholeInGeneration
  import BlackholeProperties

  // ---------------------------------------------------------------------
  // {**a, **b}
  // ---------------------------------------------------------------------

  /** `{**a, **b}`: `a`, then every entry of `b` assigned in order. */
  function Merge(a: Table, b: Table): Table
    decreases |b|
  {
    if b == [] then a
    else
      var e := b[|b| - 1];
      Put(Merge(a, b[..|b| - 1]), e.key, e.radii)
  }

  /** A key reads from `b` when `b` has it, and from `a` otherwise. */
  lemma {:induction false} MergeGet(a: Table, b: Table, k: Key)
    ensures Get(Merge(a, b), k) == if Get(b, k).Some? then Get(b, k) else Get(a, k)
    decreases |b|
  {
    if b != [] {
      var init := b[..|b| - 1];
      var e := b[|b| - 1];
      MergeGet(a, init, k);
      PutGet(Merge(a, init), e.key, e.radii, k);
      if e.key != k {
        assert Find(b, k) == Find(init, k);
      }
    }
  }

  /** Merging into a dict gives a dict. */
  lemma {:induction false} MergeIsDict(a: Table, b: Table)
    requires IsDict(a)
    ensures IsDict(Merge(a, b))
    decreases |b|
  {
    if b != [] {
      var e := b[|b| - 1];
      MergeIsDict(a, b[..|b| - 1]);
      PutIsDict(Merge(a, b[..|b| - 1]), e.key, e.radii);
    }
  }

  /** The entries of `a` keep their places and keys: a key `b` shares is overwritten in place. */
  lemma {:induction false} MergeKeepsOrder(a: Table, b: Table)
    ensures |Merge(a, b)| >= |a|
    ensures forall i :: 0 <= i < |a| ==> Merge(a, b)[i].key == a[i].key
    decreases |b|
  {
    if b != [] {
      var e := b[|b| - 1];
      MergeKeepsOrder(a, b[..|b| - 1]);
    }
  }

  /** With no key in common, `{**a, **b}` is `a` followed by `b`. */
  lemma {:induction false} MergeDisjoint(a: Table, b: Table)
    requires IsDict(b)
    requires forall i, j :: 0 <= i < |a| && 0 <= j < |b| ==> a[i].key != b[j].key
    ensures Merge(a, b) == a + b
    decreases |b|
  {
    if b != [] {
      var init := b[..|b| - 1];
      var e := b[|b| - 1];
      assert IsDict(init) by {
        assert forall i :: 0 <= i < |init| ==> init[i] == b[i];
      }
      MergeDisjoint(a, init);
      var m := a + init;
      assert Find(m, e.key) == -1 by {
        assert forall i :: 0 <= i < |m| ==> m[i].key != e.key;
      }
      assert Put(m, e.key, e.radii) == m + [Entry(e.key, e.radii)];
      assert m + [e] == a + b;
    }
  }

  // ---------------------------------------------------------------------
  // the combined base geometry
  // ---------------------------------------------------------------------

  /** `combined_base = {**nozzle_base, **blackhole_base}`. */
  function CombinedBase(): Table {
    Merge(NozzleBase(), BlackholeBase())
  }

  /** The nozzle planes are named `NozzleW_right` at z >= 0 and `NozzleW_left` below. */
  lemma NozzleBaseNames()
    ensures forall i :: 0 <= i < |NozzleBase()| ==>
      NozzleBase()[i].key.name == "NozzleW_right" || NozzleBase()[i].key.name == "NozzleW_left"
    ensures |NozzleBase()| == 14
    ensures NozzleBase()[0].key.name == "NozzleW_right" && NozzleBase()[7].key.name == "NozzleW_left"
  {
    var o := NozzleOriginal();
    var n := NozzleBase();
    assert forall i :: 0 <= i < |n| ==> n[i].key.name == o[i].key.name;
  }

  /** The two base tables share no name, so the combined table is one followed by the other. */
  lemma CombinedBaseIsConcat()
    ensures CombinedBase() == NozzleBase() + BlackholeBase()
  {
    NozzleBaseNames();
    BaseLayout();
    BaseTablesAreDicts();
    MergeDisjoint(NozzleBase(), BlackholeBase());
  }

  /** The planes selected from a concatenation are those of each part, in order. */
  lemma {:induction false} RelevantConcat(a: Table, b: Table, prefix: string)
    ensures Relevant(a + b, prefix) == Relevant(a, prefix) + Relevant(b, prefix)
    decreases |b|
  {
    if b != [] {
      var init := b[..|b| - 1];
      RelevantConcat(a, init, prefix);
      assert (a + b)[..|a + b| - 1] == a + init;
      assert (a + b)[|a + b| - 1] == b[|b| - 1];
    } else {
      assert a + b == a;
    }
  }

  /** No blackhole plane is a plane of the tungsten nozzle for the validation. */
  lemma BlackholeNotSelected()
    ensures forall i :: 0 <= i < |BlackholeBase()| ==> !Selected(BlackholeBase()[i], "NozzleW")
  {
    BaseLayout();
    assert 'W' !in RightName && 'W' !in LeftName;
    forall i | 0 <= i < |BlackholeBase()|
      ensures !HasInfix(BlackholeBase()[i].key.name, "NozzleW")
    {
      if HasInfix(BlackholeBase()[i].key.name, "NozzleW") {
        InfixChars(BlackholeBase()[i].key.name, "NozzleW", 'W');
      }
    }
  }

  /** Validation on the combined table is validation on the nozzle planes alone. */
  lemma CombinedValidation(zPos: real, reduction: real)
    ensures ValidationAt(zPos, reduction, CombinedBase(), "NozzleW") == ValidationAt(zPos, reduction, NozzleBase(), "NozzleW")
  {
    CombinedBaseIsConcat();
    BlackholeNotSelected();
    ValidationIgnoresOthers(NozzleBase(), BlackholeBase(), zPos, reduction, "NozzleW");
  }

  /** Appending planes of other components leaves the validation unchanged. */
  lemma ValidationIgnoresOthers(t: Table, u: Table, zPos: real, reduction: real, prefix: string)
    requires forall i :: 0 <= i < |u| ==> !Selected(u[i], prefix)
    ensures ValidationAt(zPos, reduction, t + u, prefix) == ValidationAt(zPos, reduction, t, prefix)
  {
    RelevantConcat(t, u, prefix);
    RelevantEmpty(u, prefix);
    assert Relevant(t + u, prefix) == Relevant(t, prefix);
  }

  // ---------------------------------------------------------------------
  // the decision after validation
  // ---------------------------------------------------------------------

  /** Either the reduction to apply, or the refusal's error message. */
  datatype Decision = Proceed(effective: real) | Reject(message: string)

  /** The error message of an invalid configuration; the texts of `z_start` and the reduction are `str()` of the floats. */
  function ErrorMessage(zStartText: string, reductionText: string, messages: seq<string>, suggested: real): string
    requires messages != []
  {
    "Invalid configuration for z_start=" + zStartText + ", reduction=" + reductionText + ":\n"
      + Join(messages, '\n') + "\nSuggested maximum reduction: " + Fixed(suggested, 4) + " cm"
  }

  /** A valid request proceeds as asked; an invalid one with a positive suggestion proceeds with it. */
  function Decide(valid: bool, messages: seq<string>, suggested: real, reduction: real,
                  zStartText: string, reductionText: string): (d: Decision)
    requires valid <==> messages == []
    ensures d.Proceed? <==> valid || suggested > 0.0
    ensures d.Proceed? ==> d.effective == reduction || (!valid && d.effective == suggested)
  {
    if valid then Proceed(reduction)
    else if suggested > 0.0 then Proceed(suggested)
    else Reject(ErrorMessage(zStartText, reductionText, messages, suggested))
  }

  /** The decision taken on what `validate_configuration` returns for `t`. */
  function DecisionFor(zStart: real, reduction: real, t: Table, zStartText: string, reductionText: string): Decision {
    var v := ValidationAt(zStart, reduction, t, "NozzleW");
    Decide(v.valid, if v.valid then [] else [v.message], if v.valid then 0.0 else v.suggested, reduction, zStartText, reductionText)
  }

  lemma FixedZero()
    ensures Fixed(0.0, 4) == "0.0000"
  {
    assert RoundedScaled(0.0, 4) == 0;
    assert NatToString(0) == "0";
    assert ZeroPad(0, 4) == "0000";
  }

  /**
   * The run proceeds exactly when the request is valid or a positive
   * reduction is suggested, and it then applies the verdict's suggestion
   * (which is the request itself when valid). A refusal always prints the
   * suggestion 0.0000 cm.
   */
  lemma DecisionFollowsValidation(zStart: real, reduction: real, t: Table, zStartText: string, reductionText: string)
    ensures var v := ValidationAt(zStart, reduction, t, "NozzleW");
      var d := DecisionFor(zStart, reduction, t, zStartText, reductionText);
      (d.Proceed? <==> v.valid || v.suggested > 0.0)
      && (d.Proceed? ==> d.effective == v.suggested)
      && (d.Reject? ==> (d.message == "Invalid configuration for z_start=" + zStartText + ", reduction=" + reductionText
            + ":\n" + v.message + "\nSuggested maximum reduction: 0.0000 cm"))
  {
    var v := ValidationAt(zStart, reduction, t, "NozzleW");
    ValidationSuggestion(zStart, reduction, t, "NozzleW");
    if !v.valid && v.suggested <= 0.0 {
      RejectMessage(zStartText, reductionText, v.message);
    }
  }

  /** A refusal with a single message and no suggestion. */
  lemma RejectMessage(zStartText: string, reductionText: string, message: string)
    ensures ErrorMessage(zStartText, reductionText, [message], 0.0) == "Invalid configuration for z_start=" + zStartText
      + ", reduction=" + reductionText + ":\n" + message + "\nSuggested maximum reduction: 0.0000 cm"
  {
    FixedZero();
    assert Join([message], '\n') == message;
  }

  /**
   * When the request is below the outer radius at the start, on a nozzle at
   * least ten times the minimum thickness thick there, the run always
   * proceeds, and the reduction it applies passes the validation.
   */
  lemma FallbackAccepted(zStart: real, reduction: real, t: Table)
    requires Relevant(t, "NozzleW") != []
    requires var r := RadiiAt(Sorting.SortBy(Relevant(t, "NozzleW"), SampleZ), zStart);
      reduction < r.rmax && r.rmin >= 0.0 && r.rmax - r.rmin > 10.0 * MinThicknessPreservation
    ensures var v := ValidationAt(zStart, reduction, t, "NozzleW");
      (v.valid || v.suggested > 0.0) && ValidationAt(zStart, v.suggested, t, "NozzleW").valid
  {
    var r := RadiiAt(Sorting.SortBy(Relevant(t, "NozzleW"), SampleZ), zStart);
    JudgeValid(zStart, reduction, r);
    if !Judge(zStart, reduction, r).valid {
      SuggestionAccepted(zStart, reduction, r);
    }
  }

  // ---------------------------------------------------------------------
  // names
  // ---------------------------------------------------------------------

  /** The default variant name. */
  function VariantName(zStart: real, effective: real): string {
    "Nozzle_zstart_" + Fixed(zStart, 4) + "_reduction_" + Fixed(effective, 4)
  }

  /** The name of the written file. */
  function FileName(zStart: real, effective: real): string {
    "Nozzle_zstart_" + Fixed(zStart, 4) + "_reduction_" + Fixed(effective, 4) + ".xml"
  }

  /** The written file is a plain name whose stem is the default variant name. */
  lemma FileNameStem(zStart: real, effective: real)
    ensures '/' !in FileName(zStart, effective)
    ensures SplitExt(FileName(zStart, effective)) == (VariantName(zStart, effective), ".xml")
  {
    var stem := VariantName(zStart, effective);
    VariantNameShape(zStart, effective);
    assert FileName(zStart, effective) == stem + ".xml";
    SplitExtOfName(stem, ".xml");
  }

  lemma VariantNameShape(zStart: real, effective: real)
    ensures var stem := VariantName(zStart, effective);
      stem != [] && stem[0] == 'N' && '/' !in stem
  {
    var a := Fixed(zStart, 4);
    var b := Fixed(effective, 4);
    FixedNoSlash(zStart);
    FixedNoSlash(effective);
    NoSlashAround(a, b);
  }

  lemma NoSlashAround(a: string, b: string)
    requires '/' !in a && '/' !in b
    ensures var stem := "Nozzle_zstart_" + a + "_reduction_" + b;
      stem != [] && stem[0] == 'N' && '/' !in stem
  {
  }

  lemma FixedNoSlash(x: real)
    ensures '/' !in Fixed(x, 4)
  {
    FixedShape(x, 4);
  }

  /** `output_dir / variant_name / filename`. */
  function OutputPath(outputDir: string, variantName: Option<string>, zStart: real, effective: real): string {
    var name := if variantName.Some? then variantName.value else VariantName(zStart, effective);
    outputDir + "/" + name + "/" + FileName(zStart, effective)
  }

  // ---------------------------------------------------------------------
  // the whole generation
  // ---------------------------------------------------------------------

  /** `(success, output_path, message)`, and the detectors written to the file on success. */
  datatype Generated = Generated(success: bool, outputPath: Option<string>, message: string, written: Option<seq<Detector>>)

  /** `{**modified_blackhole, **adjusted_nozzle}` for the reduction applied. */
  function Modifications(zStart: real, effective: real): Table {
    var ctx := GenerationContext(zStart, effective);
    var st := Run(ctx, BlackholeBase(), Init(ctx));
    Merge(st.modified, AdjustNozzle(NozzleBase(), st.changes, zStart))
  }

  /** What `generate_variant_with_validation` returns for a file whose detectors are `detectors`. */
  function Generate(zStart: real, reduction: real, zStartText: string, reductionText: string,
                    detectors: seq<Detector>, outputDir: string, variantName: Option<string>): Generated
  {
    var d := DecisionFor(zStart, reduction, CombinedBase(), zStartText, reductionText);
    if d.Reject? then Generated(false, None, d.message, None)
    else
      var written := ModifyDetectors(detectors, Modifications(zStart, d.effective));
      if written.Err? then Generated(false, None, "Error generating variant: " + written.error, None)
      else Generated(true, Some(OutputPath(outputDir, variantName, zStart, d.effective)), "Successfully generated variant",
        Some(written.value))
  }

  /**
   * `generate_variant_with_validation`. The file is given as its detectors;
   * the texts of `z_start` and of the reduction in the error message are
   * parameters. Creating the folder and registering the variant are left out.
   */
  method GenerateVariantWithValidation(zStart: real, reduction: real, zStartText: string, reductionText: string,
                                       detectors: seq<Detector>, outputDir: string, variantName: Option<string>)
    returns (success: bool, outputPath: Option<string>, message: string, written: Option<seq<Detector>>)
    ensures Generated(success, outputPath, message, written)
      == Generate(zStart, reduction, zStartText, reductionText, detectors, outputDir, variantName)
  {
    var nozzleBase := NozzleBase();
    var blackholeBase := BlackholeBase();
    var combinedBase := Merge(nozzleBase, blackholeBase);

    var decision := CheckConfiguration(zStart, reduction, combinedBase, zStartText, reductionText);
    if decision.Reject? {
      return false, None, decision.message, None;
    }
    var effectiveReduction := decision.effective;

    var name := if variantName.None? then VariantName(zStart, effectiveReduction) else variantName.value;
    var filename := FileName(zStart, effectiveReduction);
    var path := outputDir + "/" + name + "/" + filename;

    var allModifications := CombineModifications(zStart, effectiveReduction);
    var result := ModifyDetectors(detectors, allModifications);
    if result.Err? {
      return false, None, "Error generating variant: " + result.error, None;
    }
    return true, Some(path), "Successfully generated variant", Some(result.value);
  }

  /** The validation and the fallback to the suggested reduction. */
  method CheckConfiguration(zStart: real, reduction: real, combinedBase: Table, zStartText: string, reductionText: string)
    returns (decision: Decision)
    ensures decision == DecisionFor(zStart, reduction, combinedBase, zStartText, reductionText)
  {
    var isValid, validationMessages, suggestedReduction := ValidateConfiguration(zStart, reduction, combinedBase);
    var effectiveReduction := reduction;
    if !isValid {
      var errorMsg := ErrorMessage(zStartText, reductionText, validationMessages, suggestedReduction);
      if suggestedReduction > 0.0 {
        effectiveReduction := suggestedReduction;
      } else {
        return Reject(errorMsg);
      }
    }
    return Proceed(effectiveReduction);
  }

  /** The blackhole rewrite and the nozzle adjustment, combined. */
  method CombineModifications(zStart: real, effectiveReduction: real) returns (allModifications: Table)
    ensures allModifications == Modifications(zStart, effectiveReduction)
  {
    GenerationContextIs(zStart, effectiveReduction);
    var blackholeResult := ModifyBlackholeGeometryAbsolute(BlackholeBase(), zStart, effectiveReduction);
    assert blackholeResult.Ok?;
    var modifiedBlackhole := blackholeResult.value.0;
    var blackholeChanges := blackholeResult.value.1;

    BaseTablesAreDicts();
    var adjustedNozzle := AdjustNozzleForBlackhole(NozzleBase(), blackholeChanges, zStart);
    allModifications := Merge(modifiedBlackhole, adjustedNozzle);
  }

  // ---------------------------------------------------------------------
  // properties of the generation
  // ---------------------------------------------------------------------

  /** A key one of the merged tables has gives its name planes in the merge. */
  lemma MergedPlanes(a: Table, b: Table, k: Key)
    requires HasKey(a, k) || HasKey(b, k)
    ensures PlanesFor(Merge(a, b), k.name) != []
  {
    MergeGet(a, b, k);
    var m := Merge(a, b);
    var i :| 0 <= i < |m| && m[i].key == k;
    assert PlaneOf(m[i]) in PlanesFor(m, k.name);
  }

  /** The nozzle's tip planes (index 0 on the right, 7 on the left) stay in the adjusted nozzle. */
  lemma NozzlePlaneKept(zStart: real, changes: map<real, real>, i: int)
    requires i == 0 || i == 7
    ensures HasKey(AdjustNozzle(NozzleBase(), changes, zStart), NozzleBase()[i].key)
    ensures NozzleBase()[i].key.name == if i == 0 then "NozzleW_right" else "NozzleW_left"
  {
    BaseTablesAreDicts();
    NozzleBaseNames();
    AdjustKeepsPlanes(NozzleBase(), changes, zStart, i);
    var adjusted := AdjustNozzle(NozzleBase(), changes, zStart);
    assert adjusted[i].key == NozzleBase()[i].key;
  }

  /**
   * The blackhole's first right plane is always written (moved to the
   * start), and its last left plane (at -601) whenever the start is not
   * beyond it.
   */
  lemma BlackholePlaneKept(zStart: real, effective: real, j: int)
    requires j == 0 || j == 11
    requires Max(zStart, MinBlackholeStart) <= 601.0
    ensures var ctx := GenerationContext(zStart, effective);
      HasKey(Run(ctx, BlackholeBase(), Init(ctx)).modified, StepKey(ctx, BlackholeBase()[j]))
      && StepKey(ctx, BlackholeBase()[j]).name == if j == 0 then RightName else LeftName
  {
    GenerationContextIs(zStart, effective);
    RightFirstPlane();
    if j == 11 {
      LeftLastPlane();
    }
    BlackholeProperties.ModifyKeepsPlanes(BlackholeBase(), zStart, effective, j);
  }

  /** The right side's first plane is the nearest to the tip. */
  lemma RightFirstPlane()
    ensures BlackholeMinAbsZ(BlackholeBase()).Some? && BlackholeMinAbsZ(BlackholeBase()).value == 4.5176
    ensures IsBlackhole(BlackholeBase()[0].key.name) && BlackholeBase()[0].key == Key(RightName, 4.5176)
  {
    BaseMinAbsZ();
    BaseOffsetIsOneSided();
    NamesAreBlackhole();
  }

  lemma NamesAreBlackhole()
    ensures IsBlackhole(RightName) && IsBlackhole(LeftName)
  {
    HasInfixAt(RightName, "Blackhole", 6);
    HasInfixAt(LeftName, "Blackhole", 6);
  }

  /** The left side's last plane is at -601. */
  lemma LeftLastPlane()
    ensures 11 < |BlackholeBase()| && BlackholeBase()[11].key == Key(LeftName, -601.0)
    ensures IsBlackhole(BlackholeBase()[11].key.name)
  {
    assert BlackholeBase()[11].key == Key(LeftName, -601.0);
    NamesAreBlackhole();
  }

  lemma TargetNames(name: string)
    requires name in TargetGeometry()
    ensures name == "NozzleW_right" || name == "NozzleW_left" || name == RightName || name == LeftName
  {
  }

  /**
   * As long as the start is not beyond the last left blackhole plane
   * (|z| = 601), all four target detectors have entries in the
   * modifications.
   */
  lemma TargetsHaveEntries(zStart: real, effective: real, name: string)
    requires Max(zStart, MinBlackholeStart) <= 601.0 && name in TargetGeometry()
    ensures PlanesFor(Modifications(zStart, effective), name) != []
  {
    var ctx := GenerationContext(zStart, effective);
    var st := Run(ctx, BlackholeBase(), Init(ctx));
    var adjusted := AdjustNozzle(NozzleBase(), st.changes, zStart);
    assert Modifications(zStart, effective) == Merge(st.modified, adjusted);
    TargetNames(name);
    var k: Key;
    if name == "NozzleW_right" || name == "NozzleW_left" {
      var i := if name == "NozzleW_right" then 0 else 7;
      NozzlePlaneKept(zStart, st.changes, i);
      k := NozzleBase()[i].key;
    } else {
      var j := if name == RightName then 0 else 11;
      BlackholePlaneKept(zStart, effective, j);
      k := StepKey(ctx, BlackholeBase()[j]);
    }
    assert k.name == name;
    MergedPlanes(st.modified, adjusted, k);
  }

  /**
   * The outcome of a generation: a refusal carries the validation message
   * and suggests 0.0000 cm; when the run proceeds it applies the nozzle
   * verdict's suggestion, and with a start not beyond |z| = 601 the file
   * rewrite cannot fail, so it succeeds, writes to the path named after
   * that reduction, and gives every target detector its modified planes.
   */
  lemma GenerateOutcome(zStart: real, reduction: real, zStartText: string, reductionText: string,
                        detectors: seq<Detector>, outputDir: string, variantName: Option<string>)
    requires Max(zStart, MinBlackholeStart) <= 601.0
    ensures var v := ValidationAt(zStart, reduction, NozzleBase(), "NozzleW");
      var g := Generate(zStart, reduction, zStartText, reductionText, detectors, outputDir, variantName);
      (g.success <==> v.valid || v.suggested > 0.0)
      && (!g.success ==> (g.message == "Invalid configuration for z_start=" + zStartText + ", reduction=" + reductionText
            + ":\n" + v.message + "\nSuggested maximum reduction: 0.0000 cm"))
      && (g.success ==> (g.outputPath == Some(OutputPath(outputDir, variantName, zStart, v.suggested))
            && g.written.Some? && |g.written.value| == |detectors|
            && forall i :: 0 <= i < |detectors| ==> (g.written.value[i] ==
                 (if detectors[i].name in TargetGeometry()
                  then Detector(detectors[i].name, ZplanesOf(SortedPlanes(Modifications(zStart, v.suggested), detectors[i].name)))
                  else detectors[i]))))
  {
    CombinedValidation(zStart, reduction);
    DecisionFollowsValidation(zStart, reduction, CombinedBase(), zStartText, reductionText);
    var d := DecisionFor(zStart, reduction, CombinedBase(), zStartText, reductionText);
    var g := Generate(zStart, reduction, zStartText, reductionText, detectors, outputDir, variantName);
    if d.Reject? {
      assert g == Generated(false, None, d.message, None);
    } else {
      RewriteSucceeds(zStart, d.effective, detectors);
      var r := ModifyDetectors(detectors, Modifications(zStart, d.effective));
      assert g == Generated(true, Some(OutputPath(outputDir, variantName, zStart, d.effective)),
        "Successfully generated variant", Some(r.value));
    }
  }

  /** With a start not beyond |z| = 601, the file rewrite of a generation never fails. */
  lemma RewriteSucceeds(zStart: real, effective: real, detectors: seq<Detector>)
    requires Max(zStart, MinBlackholeStart) <= 601.0
    ensures var mods := Modifications(zStart, effective);
      var r := ModifyDetectors(detectors, mods);
      r.Ok? && |r.value| == |detectors|
      && (forall i :: 0 <= i < |detectors| && detectors[i].name !in TargetGeometry() ==> r.value[i] == detectors[i])
      && (forall i :: 0 <= i < |detectors| && detectors[i].name in TargetGeometry() ==>
            r.value[i] == Detector(detectors[i].name, ZplanesOf(SortedPlanes(mods, detectors[i].name))))
  {
    var mods := Modifications(zStart, effective);
    forall i | 0 <= i < |detectors| && detectors[i].name in TargetGeometry()
      ensures PlanesFor(mods, detectors[i].name) != []
    {
      TargetsHaveEntries(zStart, effective, detectors[i].name);
    }
    DetectorsWithEntriesRewritten(detectors, mods);
  }
}
