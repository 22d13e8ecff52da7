/** The two parameter tables of the catalog and the case dictionary that
    files them under application and topology. */
module Systems {
  import opened Wrappers
  import opened Catalog

  /** The cooling case of the air-source heat pump (the table's own name is
      `COOLING_ASGP`). */
  const CoolingAsgp := SystemSpec([
    Parameter("T_0", Explanation("Environment Temperature", "환경온도"),
      "$T_0$", 32.0, Lit(-50), Lit(50), "℃", 0.1),
    Parameter("T_a_int_in", Explanation("Indoor Unit Inlet Air Temperature", "실내기로 들어가는 공기 온도"),
      "$T_{a,int,in}$", 24.0, Lit(-50), Lit(50), "℃", 0.1),
    Parameter("T_a_int_out", Explanation("Indoor Unit Outlet Air Temperature (=Indoor Temperature)", "실내기에서 나가는 공기 온도"),
      "$T_{a,int,out}$", 14.0, Lit(-60), Ref("T_a_int_in", -2), "℃", 0.5),
    Parameter("T_a_ext_out", Explanation("Outdoor Unit Outlet Air Temperature", "실외기에서 나가는 공기 온도"),
      "$T_{a,ext,out}$", 42.0, Ref("T_0", 2), Lit(80), "℃", 0.5),
    Parameter("T_r_int_A", Explanation("Indoor Unit Refrigerant Temperature", "실내기 측 냉매 온도(ASHP)"),
      "$T_{r,int,A}$", 9.0, Lit(-80), Ref("T_a_int_out", -2), "℃", 0.5),
    Parameter("T_r_ext_A", Explanation("Outdoor Unit Refrigerant Temperature", "실외기 측 냉매 온도(ASHP)"),
      "$T_{r,ext,A}$", 47.0, Ref("T_a_ext_out", 2), Lit(100), "℃", 0.5),
    Parameter("k", Explanation("COP Correction Factor", "COP 보정 계수"),
      "$k$", 0.4, Lit(0), Lit(1), "-", 0.01),
    Parameter("E_f_int", Explanation("Indoor Unit Fan Power", "실내기 측 팬 전력"),
      "$E_{f,int}$", 0.21, Lit(0), Lit(1), "kW", 0.01),
    Parameter("E_f_ext", Explanation("Outdoor Unit Fan Power", "실외기 측 팬 전력"),
      "$E_{f,ext}$", 0.29, Lit(0), Lit(1), "kW", 0.01),
    Parameter("Q_r_int_A", Explanation("Indoor Unit Heat Absorption", "실내기 실내 흡열량"),
      "$Q_{r,int,A}$", 15.252, Lit(0), Lit(30), "kW", 0.001)
  ])

  /** The cooling case of the ground-source heat pump. `E_pmp_G` carries the
      explanation and symbol of the outdoor fan, and `Q_r_int_G` the symbol of
      the air-source table, as the table has them. */
  const CoolingGshp := SystemSpec([
    Parameter("T_0", Explanation("Environment Temperature", "환경온도"),
      "$T_0$", 32.0, Lit(-50), Lit(50), "℃", 0.5),
    Parameter("T_g", Explanation("Ground Temperature", "토양온도"),
      "$T_g$", 19.0, Lit(-30), Ref("T_0", 0), "℃", 0.5),
    Parameter("T_a_int_in", Explanation("Indoor Unit Inlet Air Temperature", "실내기로 들어가는 공기 온도"),
      "$T_{a,int,in}$", 24.0, Lit(-50), Lit(50), "℃", 0.5),
    Parameter("T_a_int_out", Explanation("Indoor Unit Outlet Air Temperature(=Indoor Temperature)", "실내기에서 나가는 공기 온도"),
      "$T_{a,int,out}$", 14.0, Lit(-60), Ref("T_a_int_in", -2), "℃", 0.1),
    Parameter("T_r_int_G", Explanation("Indoor Unit Refrigerant Temperature", "실내기 측 냉매 온도"),
      "$T_{r,int,G}$", 9.0, Lit(-80), Ref("T_a_int_out", -2), "℃", 0.1),
    Parameter("T_r_ext_G", Explanation("Outdoor Unit Refrigerant Temperature", "실외기 측 냉매 온도"),
      "$T_{r,ext,G}$", 29.0, Ref("T_g", 2), Ref("T_0", -2), "℃", 0.1),
    Parameter("k", Explanation("COP Correction Factor", "COP 보정 계수"),
      "$k$", 0.4, Lit(0), Lit(1), "-", 0.01),
    Parameter("E_f_int", Explanation("Indoor Unit Fan Power", "실내기 측 팬 전력"),
      "$E_{f,int}$", 0.21, Lit(0), Lit(1), "kW", 0.01),
    Parameter("E_f_ext", Explanation("Outdoor Unit Fan Power", "실외기 측 팬 전력"),
      "$E_{f,ext}$", 0.29, Lit(0), Lit(1), "kW", 0.01),
    Parameter("E_pmp_G", Explanation("Outdoor Unit Fan Power", "실외기 측 팬 전력"),
      "$E_{f,ext}$", 0.29, Lit(0), Lit(1), "kW", 0.01),
    Parameter("Q_r_int_G", Explanation("Indoor Unit Heat Absorption", "실내기 실내 흡열량"),
      "$Q_{r,int,A}$", 15.252, Lit(0), Lit(30), "kW", 0.001)
  ])

  /** Application, then topology, then case. Heating and hot water have no
      topologies yet. */
  const SystemCase: map<string, map<string, SystemSpec>> := map[
    "COOLING" := map["ASHP" := CoolingAsgp, "GSHP" := CoolingGshp],
    "HEATING" := map[],
    "HOT WATER" := map[]
  ]

  /** The ordered parameter table of a case: `SYSTEM_CASE[application][topology]`,
      which raises `KeyError` naming the first key that is not there. */
  function GetSpecs(application: string, topology: string): (r: Result<seq<Parameter>, CatalogError>)
    ensures application !in SystemCase ==> r == Failure(KeyError(application))
    ensures application in SystemCase && topology !in SystemCase[application] ==>
      r == Failure(KeyError(topology))
    ensures r.Success? <==> application in SystemCase && topology in SystemCase[application]
  {
    if application !in SystemCase then Failure(KeyError(application))
    else if topology !in SystemCase[application] then Failure(KeyError(topology))
    else Success(SystemCase[application][topology].parameters)
  }

  /** The air-source table lists these ten parameters in this order. */
  lemma AsgpIds()
    ensures Ids(CoolingAsgp.parameters) == ["T_0", "T_a_int_in", "T_a_int_out", "T_a_ext_out",
      "T_r_int_A", "T_r_ext_A", "k", "E_f_int", "E_f_ext", "Q_r_int_A"]
  {
  }

  /** The ground-source table lists these eleven parameters in this order. */
  lemma GshpIds()
    ensures Ids(CoolingGshp.parameters) == ["T_0", "T_g", "T_a_int_in", "T_a_int_out",
      "T_r_int_G", "T_r_ext_G", "k", "E_f_int", "E_f_ext", "E_pmp_G", "Q_r_int_G"]
  {
  }

  lemma AsgpUnique()
    ensures UniqueIds(CoolingAsgp.parameters)
  {
    var ps := CoolingAsgp.parameters;
    forall i, j | 0 <= i < j < |ps| ensures ps[i].id != ps[j].id {
      assert i == 0 || i == 1 || i == 2 || i == 3 || i == 4 || i == 5 || i == 6 || i == 7 || i == 8;
    }
  }

  lemma GshpUnique()
    ensures UniqueIds(CoolingGshp.parameters)
  {
    var ps := CoolingGshp.parameters;
    forall i, j | 0 <= i < j < |ps| ensures ps[i].id != ps[j].id {
      assert i == 0 || i == 1 || i == 2 || i == 3 || i == 4 || i == 5 || i == 6 || i == 7 || i == 8 || i == 9;
    }
  }

  /** The ranges of the air-source table resolved against its own defaults. */
  const AsgpResolved: seq<(real, real)> := [
    (-50.0, 50.0), (-50.0, 50.0), (-60.0, 22.0), (34.0, 80.0), (-80.0, 12.0),
    (44.0, 100.0), (0.0, 1.0), (0.0, 1.0), (0.0, 1.0), (0.0, 30.0)]

  /** The ranges of the ground-source table resolved against its own defaults. */
  const GshpResolved: seq<(real, real)> := [
    (-50.0, 50.0), (-30.0, 32.0), (-50.0, 50.0), (-60.0, 22.0), (-80.0, 12.0),
    (21.0, 30.0), (0.0, 1.0), (0.0, 1.0), (0.0, 1.0), (0.0, 1.0), (0.0, 30.0)]

  /** Where the bounds of each air-source entry point and what they resolve to. */
  const AsgpCertificates := [
    Certificate(0, 0, -50.0, 50.0),
    Certificate(0, 0, -50.0, 50.0),
    Certificate(0, 1, -60.0, 22.0),
    Certificate(0, 0, 34.0, 80.0),
    Certificate(0, 2, -80.0, 12.0),
    Certificate(3, 0, 44.0, 100.0),
    Certificate(0, 0, 0.0, 1.0),
    Certificate(0, 0, 0.0, 1.0),
    Certificate(0, 0, 0.0, 1.0),
    Certificate(0, 0, 0.0, 30.0)
  ]

  /** Where the bounds of each ground-source entry point and what they resolve to. */
  const GshpCertificates := [
    Certificate(0, 0, -50.0, 50.0),
    Certificate(0, 0, -30.0, 32.0),
    Certificate(0, 0, -50.0, 50.0),
    Certificate(0, 2, -60.0, 22.0),
    Certificate(0, 3, -80.0, 12.0),
    Certificate(1, 0, 21.0, 30.0),
    Certificate(0, 0, 0.0, 1.0),
    Certificate(0, 0, 0.0, 1.0),
    Certificate(0, 0, 0.0, 1.0),
    Certificate(0, 0, 0.0, 1.0),
    Certificate(0, 0, 0.0, 30.0)
  ]

  lemma AsgpCertified()
    ensures |AsgpCertificates| == |CoolingAsgp.parameters|
    ensures forall i :: 0 <= i < |CoolingAsgp.parameters| ==>
      Certifies(CoolingAsgp.parameters, i, AsgpCertificates[i])
    ensures forall i :: 0 <= i < |AsgpResolved| ==>
      AsgpResolved[i] == (AsgpCertificates[i].lo, AsgpCertificates[i].hi)
  {
    var ps, cs := CoolingAsgp.parameters, AsgpCertificates;
    forall i | 0 <= i < |ps| ensures Certifies(ps, i, cs[i]) && AsgpResolved[i] == (cs[i].lo, cs[i].hi) {
      assert i == 0 || i == 1 || i == 2 || i == 3 || i == 4 || i == 5 || i == 6 || i == 7 || i == 8 || i == 9;
    }
  }

  lemma GshpCertified()
    ensures |GshpCertificates| == |CoolingGshp.parameters|
    ensures forall i :: 0 <= i < |CoolingGshp.parameters| ==>
      Certifies(CoolingGshp.parameters, i, GshpCertificates[i])
    ensures forall i :: 0 <= i < |GshpResolved| ==>
      GshpResolved[i] == (GshpCertificates[i].lo, GshpCertificates[i].hi)
  {
    var ps, cs := CoolingGshp.parameters, GshpCertificates;
    forall i | 0 <= i < |ps| ensures Certifies(ps, i, cs[i]) && GshpResolved[i] == (cs[i].lo, cs[i].hi) {
      assert i == 0 || i == 1 || i == 2 || i == 3 || i == 4 || i == 5 || i == 6 || i == 7 || i == 8 || i == 9 || i == 10;
    }
  }

  /** The air-source table is well formed: distinct identifiers, bounds that
      name earlier parameters, positive steps, ordered numeric ranges, and
      every default inside its range resolved against the other defaults. */
  lemma AsgpWellFormed()
    ensures WellFormedTable(CoolingAsgp.parameters)
  {
    AsgpUnique();
    AsgpCertified();
    CertifiedTable(CoolingAsgp.parameters, AsgpCertificates);
  }

  /** The ground-source table is well formed in the same sense. */
  lemma GshpWellFormed()
    ensures WellFormedTable(CoolingGshp.parameters)
  {
    GshpUnique();
    GshpCertified();
    CertifiedTable(CoolingGshp.parameters, GshpCertificates);
  }

  /** The ranges of the air-source table, resolved against its defaults. */
  lemma AsgpRanges()
    ensures |AsgpResolved| == |CoolingAsgp.parameters|
    ensures forall i :: 0 <= i < |AsgpResolved| ==>
      ResolveRange(CoolingAsgp.parameters[i], Defaults(CoolingAsgp.parameters)) == Success(AsgpResolved[i])
  {
    AsgpUnique();
    AsgpCertified();
    CertifiedTable(CoolingAsgp.parameters, AsgpCertificates);
  }

  /** The ranges of the ground-source table, resolved against its defaults. */
  lemma GshpRanges()
    ensures |GshpResolved| == |CoolingGshp.parameters|
    ensures forall i :: 0 <= i < |GshpResolved| ==>
      ResolveRange(CoolingGshp.parameters[i], Defaults(CoolingGshp.parameters)) == Success(GshpResolved[i])
  {
    GshpUnique();
    GshpCertified();
    CertifiedTable(CoolingGshp.parameters, GshpCertificates);
  }

  /** The symbolic bounds of the air-source table, written back as text, are
      the strings the table holds. */
  lemma AsgpBoundTexts()
    ensures Written(CoolingAsgp.parameters[2].high) == Text("T_a_int_in-2")
    ensures Written(CoolingAsgp.parameters[3].low) == Text("T_0+2")
    ensures Written(CoolingAsgp.parameters[4].high) == Text("T_a_int_out-2")
    ensures Written(CoolingAsgp.parameters[5].low) == Text("T_a_ext_out+2")
  {
    assert Decimal.Str(2) == "2";
  }

  /** The symbolic bounds of the ground-source table, written back as text,
      are the strings the table holds. */
  lemma GshpBoundTexts()
    ensures Written(CoolingGshp.parameters[1].high) == Text("T_0")
    ensures Written(CoolingGshp.parameters[3].high) == Text("T_a_int_in-2")
    ensures Written(CoolingGshp.parameters[4].high) == Text("T_a_int_out-2")
    ensures Written(CoolingGshp.parameters[5].low) == Text("T_g+2")
    ensures Written(CoolingGshp.parameters[5].high) == Text("T_0-2")
  {
    assert Decimal.Str(2) == "2";
  }

  /** Loading the texts `T_a_int_in-2`, `T_0+2` and `T_0` gives the tagged bounds. */
  lemma LoadExamples()
    ensures Load(Text("T_a_int_in-2")) == Some(Ref("T_a_int_in", -2))
    ensures Load(Text("T_0+2")) == Some(Ref("T_0", 2))
    ensures Load(Text("T_0")) == Some(Ref("T_0", 0))
  {
    assert Decimal.Str(2) == "2";
    assert IsIdent("T_a_int_in") && IsIdent("T_0");
    assert Written(Ref("T_a_int_in", -2)) == Text("T_a_int_in-2");
    assert Written(Ref("T_0", 2)) == Text("T_0+2");
    LoadWritten(Ref("T_a_int_in", -2));
    LoadWritten(Ref("T_0", 2));
    LoadWritten(Ref("T_0", 0));
  }

  /** Resolving the text `T_a_int_in-2` with `T_a_int_in` at 24 gives 22. */
  lemma ResolveExample()
    ensures Load(Text("T_a_int_in-2")).Some?
    ensures Resolve(Load(Text("T_a_int_in-2")).value, map["T_a_int_in" := 24.0]) == Success(22.0)
  {
    LoadExamples();
  }

  /** Only the two cooling cases have a table: every other application or
      topology fails with `KeyError` naming the missing key, and whatever a
      lookup returns is a well-formed table. */
  lemma GetSpecsCases(application: string, topology: string)
    ensures GetSpecs(application, topology).Success? <==>
      application == "COOLING" && (topology == "ASHP" || topology == "GSHP")
    ensures application == "COOLING" && topology == "ASHP" ==>
      GetSpecs(application, topology) == Success(CoolingAsgp.parameters)
    ensures application == "COOLING" && topology == "GSHP" ==>
      GetSpecs(application, topology) == Success(CoolingGshp.parameters)
    ensures application == "COOLING" && topology != "ASHP" && topology != "GSHP" ==>
      GetSpecs(application, topology) == Failure(KeyError(topology))
    ensures (application == "HEATING" || application == "HOT WATER") ==>
      GetSpecs(application, topology) == Failure(KeyError(topology))
    ensures application !in {"COOLING", "HEATING", "HOT WATER"} ==>
      GetSpecs(application, topology) == Failure(KeyError(application))
    ensures GetSpecs(application, topology).Success? ==> WellFormedTable(GetSpecs(application, topology).value)
  {
    AsgpWellFormed();
    GshpWellFormed();
  }
}
