/** The shared part of every category processor: the schema check, the
    category tags, the operator-name and aircraft-model canonicalisers and
    the serial-number normalisation the fault and part-replacement
    processors share. */
module ImportProcessor {
  import opened Common
  import opened Sequences

  // ---------------------------------------------------------------------------
  // Category tags

  /** The tag written into `数据类型` for each storage key. */
  const TypeTags: map<string, string> :=
    map["case" := "服务请求", "faults" := "故障报告", "r_and_i_record" := "部件拆换记录"]

  /** `DATA_SOURCE_TYPE_MAP.get(key, key)`. */
  function DefaultTypeTag(key: string): (r: string)
    ensures key in TypeTags ==> r == TypeTags[key]
    ensures key !in TypeTags ==> r == key
  {
    if key in TypeTags then TypeTags[key] else key
  }

  // ---------------------------------------------------------------------------
  // validate_headers

  /** The schema check: success, or the set of required names the upload
      lacks.  Extra columns never matter. */
  function ValidateHeaders(columns: seq<string>, required: seq<string>): (r: Result<(), set<string>>)
    ensures r.Ok? <==> Elems(required) <= Elems(columns)
    ensures r.Err? ==> r.error != {} && r.error <= Elems(required)
    ensures r.Err? ==> forall c :: c in r.error <==> c in required && c !in columns
  {
    if Elems(required) <= Elems(columns) then Ok(())
    else
      var missing := Elems(required) - Elems(columns);
      assert missing != {} by {
        var c :| c in Elems(required) && c !in Elems(columns);
        assert c in missing;
      }
      Err(missing)
  }

  /** Adding columns to an accepted upload keeps it accepted, and adding
      columns to a rejected one never changes what is reported missing
      unless the new columns supply it. */
  lemma ValidateMonotone(columns: seq<string>, extra: seq<string>, required: seq<string>)
    ensures ValidateHeaders(columns, required).Ok? ==> ValidateHeaders(columns + extra, required).Ok?
    ensures ValidateHeaders(columns + extra, required).Err? ==>
      ValidateHeaders(columns + extra, required).error
        == ValidateHeaders(columns, required).error - Elems(extra)
  {
    assert Elems(columns + extra) == Elems(columns) + Elems(extra);
  }

  // ---------------------------------------------------------------------------
  // clean_operator_names

  /** One replacement rule: every alias becomes the target. */
  datatype Rule = Rule(aliases: seq<string>, target: string)

  /** The alias table, one rule per operator, in the order the rules are
      applied. */
  function Tianjiao(): Rule { Rule(["天骄", "天骄航空", "天骄航空有限公司"], "天骄") }
  function ChinaEastern(): Rule { Rule(["东航", "东方航空", "一二三航空", "一二三航空有限公司（东方航空）", "东航技术", "中国东方航空有限公司", "一二三航空有限公司（东航）", "一二三航空有限公司", "中国东方航空集团有限公司"], "东航") }
  function JiangxiAir(): Rule { Rule(["江西航", "江西航空有限公司", "江西航空"], "江西航") }
  function ChinaSouthern(): Rule { Rule(["南航", "南方航空", "中国南方航空有限公司", "中国南方航空股份有限公司"], "南航") }
  function AirChina(): Rule { Rule(["国航", "中国国航", "中国国际航空股份有限公司"], "国航") }
  function ChengduAir(): Rule { Rule(["成航", "成都航空", "成都航空有限公司"], "成航") }
  function UrumqiAir(): Rule { Rule(["乌航", "乌鲁木齐航空"], "乌航") }
  function ChinaExpress(): Rule { Rule(["华夏", "华夏航空", "华夏航空股份有限公司"], "华夏") }
  function SuparnaAir(): Rule { Rule(["金鹏", "金鹏航空"], "金鹏") }
  function YtoCargo(): Rule { Rule(["圆通", "圆通货航", "圆通航空", "杭州圆通货运航空有限公司"], "圆通") }
  function ChinaFlying(): Rule { Rule(["中飞通", "中飞通航", "中飞通用航空有限责任公司"], "中飞通") }
  function LonghaoAir(): Rule { Rule(["中原龙浩", "中原龙浩航空"], "中原龙浩") }
  function ComacMaintenance(): Rule { Rule(["上飞公司维修中心"], "上飞公司维修中心") }
  function Gameco(): Rule { Rule(["GAMECO", "广州飞机维修工程有限公司（GAMECO）"], "GAMECO") }
  function TransNusa(): Rule { Rule(["翎亚", "翎亚航空 PT TransNusa Aviation Mandiri", "TRANSNUSA AVIATION MANDIRI", "TransNusa"], "翎亚") }
  function Comac(): Rule { Rule(["中国商飞", "中国商用飞机有限责任公司"], "中国商飞") }
  function Ameco(): Rule { Rule(["AMECO", "北京飞机维修工程有限公司"], "AMECO") }
  function ShandongTaikoo(): Rule { Rule(["山东太古", "山东太古飞机工程有限公司"], "山东太古") }
  function Starco(): Rule { Rule(["STARCO", "上海科技宇航有限公司 Shanghai Technologies Aerospace (STARCO)"], "STARCO") }
  function ChinaAircraftLeasing(): Rule { Rule(["中飞租", "中国飞机租赁集团控股有限公司"], "中飞租") }

  const RuleCount: nat := 20

  function OperatorRule(k: nat): Rule
    requires k < RuleCount
  {
    match k
    case 0 => Tianjiao()
    case 1 => ChinaEastern()
    case 2 => JiangxiAir()
    case 3 => ChinaSouthern()
    case 4 => AirChina()
    case 5 => ChengduAir()
    case 6 => UrumqiAir()
    case 7 => ChinaExpress()
    case 8 => SuparnaAir()
    case 9 => YtoCargo()
    case 10 => ChinaFlying()
    case 11 => LonghaoAir()
    case 12 => ComacMaintenance()
    case 13 => Gameco()
    case 14 => TransNusa()
    case 15 => Comac()
    case 16 => Ameco()
    case 17 => ShandongTaikoo()
    case 18 => Starco()
    case _ => ChinaAircraftLeasing()
  }

  function OperatorRules(): (r: seq<Rule>)
    ensures |r| == RuleCount && forall k :: 0 <= k < RuleCount ==> r[k] == OperatorRule(k)
  {
    seq(RuleCount, k requires 0 <= k < RuleCount => OperatorRule(k))
  }

  /** Only rules with at least two aliases are applied; a one-alias rule
      maps its alias to itself anyway. */
  predicate Matches(k: Rule, v: string) {
    |k.aliases| > 1 && v in k.aliases
  }

  /** The applied rules one after another, as the loop of `replace` calls
      does. */
  function ApplyRules(rules: seq<Rule>, v: string): string
    decreases |rules|
  {
    if |rules| == 0 then v
    else ApplyRules(rules[1..], if Matches(rules[0], v) then rules[0].target else v)
  }

  /** The reference reading of the table: the target of the first applied
      rule listing the value. */
  function Lookup(rules: seq<Rule>, v: string): Option<string>
    decreases |rules|
  {
    if |rules| == 0 then None
    else if Matches(rules[0], v) then Some(rules[0].target)
    else Lookup(rules[1..], v)
  }

  /** Each target is listed by its own rule and by no other, so a replaced
      value is never replaced again and a target maps to itself. */
  predicate Exclusive(rules: seq<Rule>) {
    (forall i :: 0 <= i < |rules| ==> rules[i].target in rules[i].aliases)
    && (forall i, j :: 0 <= i < |rules| && 0 <= j < |rules| && i != j ==> rules[i].target !in rules[j].aliases)
  }

  /** `clean_operator_names` on one cell: the applied rules, then a missing
      operator becomes "无". */
  function CanonicalOperator(c: Cell): (r: Cell)
    ensures r.Str?
  {
    match c
    case Null => Str("无")
    case Str(v) => Str(ApplyRules(OperatorRules(), v))
  }

  /** A listed name becomes the target of the first applied rule listing it;
      any other name is kept, and a missing operator becomes "无". */
  lemma OperatorMeaning(c: Cell)
    ensures c.Null? ==> CanonicalOperator(c) == Str("无")
    ensures c.Str? ==> CanonicalOperator(c) == Str(Lookup(OperatorRules(), c.s).GetOr(c.s))
  {
    if c.Str? {
      OperatorExclusive();
      ApplyIsLookup(OperatorRules(), c.s);
    }
  }

  /** Canonical names are fixed points, so canonicalising twice is
      canonicalising once. */
  lemma OperatorIdempotent(c: Cell)
    ensures CanonicalOperator(CanonicalOperator(c)) == CanonicalOperator(c)
  {
    OperatorExclusive();
    NoneAbsent();
    match c
    case Null => RulesIdempotent(OperatorRules(), "无");
    case Str(v) => RulesIdempotent(OperatorRules(), v);
  }

  /** Applying an exclusive table twice is applying it once, and a value no
      rule lists stays as it is. */
  lemma RulesIdempotent(rules: seq<Rule>, v: string)
    requires Exclusive(rules)
    ensures ApplyRules(rules, ApplyRules(rules, v)) == ApplyRules(rules, v)
    ensures (forall j :: 0 <= j < |rules| ==> v !in rules[j].aliases) ==> ApplyRules(rules, v) == v
  {
    ApplyIsLookup(rules, v);
    match Lookup(rules, v)
    case None =>
    case Some(t) =>
      var i := LookupTarget(rules, v);
      ApplyIsLookup(rules, t);
      LookupOwnTarget(rules, i);
    if forall j :: 0 <= j < |rules| ==> v !in rules[j].aliases {
      LookupAbsent(rules, v);
    }
  }

  /** The value a lookup returns is the target of an applied rule that
      lists the looked-up value. */
  lemma {:induction false} LookupTarget(rules: seq<Rule>, v: string) returns (i: nat)
    requires Lookup(rules, v).Some?
    ensures i < |rules| && Matches(rules[i], v) && Lookup(rules, v) == Some(rules[i].target)
    decreases |rules|
  {
    if Matches(rules[0], v) {
      i := 0;
    } else {
      var k := LookupTarget(rules[1..], v);
      i := k + 1;
    }
  }

  /** A value no rule lists is looked up as nothing. */
  lemma {:induction false} LookupAbsent(rules: seq<Rule>, v: string)
    requires forall j :: 0 <= j < |rules| ==> v !in rules[j].aliases
    ensures Lookup(rules, v).None?
    decreases |rules|
  {
    if |rules| > 0 {
      assert forall j :: 0 <= j < |rules[1..]| ==> v !in rules[1..][j].aliases by {
        forall j | 0 <= j < |rules[1..]| ensures v !in rules[1..][j].aliases {
          assert rules[1..][j] == rules[j + 1];
        }
      }
      LookupAbsent(rules[1..], v);
    }
  }

  /** The first rule listing a value decides its lookup. */
  lemma {:induction false} LookupFirst(rules: seq<Rule>, v: string, i: nat)
    requires i < |rules| && Matches(rules[i], v)
    requires forall k :: 0 <= k < i ==> !Matches(rules[k], v)
    ensures Lookup(rules, v) == Some(rules[i].target)
    decreases i
  {
    if i > 0 {
      assert !Matches(rules[0], v);
      assert forall k :: 0 <= k < i - 1 ==> !Matches(rules[1..][k], v) by {
        forall k | 0 <= k < i - 1 ensures !Matches(rules[1..][k], v) {
          assert rules[1..][k] == rules[k + 1];
        }
      }
      LookupFirst(rules[1..], v, i - 1);
    }
  }

  /** An applied rule's target looks up to itself. */
  lemma LookupOwnTarget(rules: seq<Rule>, i: nat)
    requires Exclusive(rules) && i < |rules| && |rules[i].aliases| > 1
    ensures Lookup(rules, rules[i].target) == Some(rules[i].target)
  {
    LookupFirst(rules, rules[i].target, i);
  }

  lemma ExclusiveSeparated(rules: seq<Rule>)
    requires Exclusive(rules)
    ensures Separated(rules)
  {
  }

  /** No target is an alias of a later rule, so a replaced value is never
      replaced again. */
  predicate Separated(rules: seq<Rule>) {
    forall i, j :: 0 <= i < j < |rules| ==> rules[i].target !in rules[j].aliases
  }

  /** With separated rules, applying them in turn is a single lookup. */
  lemma {:induction false} ApplyIsLookup(rules: seq<Rule>, v: string)
    requires Exclusive(rules)
    ensures ApplyRules(rules, v) == Lookup(rules, v).GetOr(v)
    decreases |rules|
  {
    ExclusiveSeparated(rules);
    SeparatedApply(rules, v);
  }

  lemma {:induction false} SeparatedApply(rules: seq<Rule>, v: string)
    requires Separated(rules)
    ensures ApplyRules(rules, v) == Lookup(rules, v).GetOr(v)
    decreases |rules|
  {
    if |rules| > 0 {
      assert Separated(rules[1..]) by {
        forall i, j | 0 <= i < j < |rules[1..]|
          ensures rules[1..][i].target !in rules[1..][j].aliases
        {
          assert rules[1..][i] == rules[i + 1] && rules[1..][j] == rules[j + 1];
        }
      }
      if Matches(rules[0], v) {
        TargetUntouched(rules, rules[0].target);
      } else {
        SeparatedApply(rules[1..], v);
      }
    }
  }

  lemma TargetUntouched(rules: seq<Rule>, t: string)
    requires |rules| > 0 && Separated(rules) && t == rules[0].target
    ensures ApplyRules(rules[1..], t) == t
  {
    assert forall j :: 0 <= j < |rules[1..]| ==> t !in rules[1..][j].aliases by {
      forall j | 0 <= j < |rules[1..]| ensures t !in rules[1..][j].aliases {
        assert rules[1..][j] == rules[j + 1];
      }
    }
    Untouched(rules[1..], t);
  }

  lemma {:induction false} Untouched(rules: seq<Rule>, t: string)
    requires forall j :: 0 <= j < |rules| ==> t !in rules[j].aliases
    ensures ApplyRules(rules, t) == t
    decreases |rules|
  {
    if |rules| > 0 {
      assert forall j :: 0 <= j < |rules[1..]| ==> t !in rules[1..][j].aliases by {
        forall j | 0 <= j < |rules[1..]| ensures t !in rules[1..][j].aliases {
          assert rules[1..][j] == rules[j + 1];
        }
      }
      Untouched(rules[1..], t);
    }
  }

  /** Rule `k` lists its target first, and no other rule lists it. */
  predicate Owned(rules: seq<Rule>, k: nat)
    requires k < |rules|
  {
    var t := rules[k].target;
    |rules[k].aliases| > 0 && t == rules[k].aliases[0]
    && forall j :: 0 <= j < |rules| && j != k ==> t !in rules[j].aliases
  }

  lemma OwnedExclusive(rules: seq<Rule>)
    requires forall k :: 0 <= k < |rules| ==> Owned(rules, k)
    ensures Exclusive(rules)
  {
    forall i | 0 <= i < |rules|
      ensures rules[i].target in rules[i].aliases
      ensures forall j :: 0 <= j < |rules| && i != j ==> rules[i].target !in rules[j].aliases
    {
      assert Owned(rules, i);
    }
  }

  /** The operator table lists every target under its own rule only. */
  lemma OperatorExclusive()
    ensures Exclusive(OperatorRules())
  {
    AllOwned();
    OwnedExclusive(OperatorRules());
  }

  lemma AllOwned()
    ensures forall k :: 0 <= k < RuleCount ==> Owned(OperatorRules(), k)
  {
    forall k | 0 <= k < RuleCount
      ensures Owned(OperatorRules(), k)
    {
      if k < 5 {
        OwnedFirst(k);
      } else if k < 10 {
        OwnedSecond(k);
      } else if k < 15 {
        OwnedThird(k);
      } else if k < 18 {
        OwnedFourth(k);
      } else {
        OwnedFifth(k);
      }
    }
  }

  lemma OwnedFirst(k: nat)
    requires 0 <= k < 5
    ensures Owned(OperatorRules(), k)
  {
    if k == 0 {
      TianjiaoOwned();
    } else if k == 1 {
      ChinaEasternOwned();
    } else if k == 2 {
      JiangxiAirOwned();
    } else if k == 3 {
      ChinaSouthernOwned();
    } else {
      AirChinaOwned();
    }
  }

  lemma OwnedSecond(k: nat)
    requires 5 <= k < 10
    ensures Owned(OperatorRules(), k)
  {
    if k == 5 {
      ChengduAirOwned();
    } else if k == 6 {
      UrumqiAirOwned();
    } else if k == 7 {
      ChinaExpressOwned();
    } else if k == 8 {
      SuparnaAirOwned();
    } else {
      YtoCargoOwned();
    }
  }

  lemma OwnedThird(k: nat)
    requires 10 <= k < 15
    ensures Owned(OperatorRules(), k)
  {
    if k == 10 {
      ChinaFlyingOwned();
    } else if k == 11 {
      LonghaoAirOwned();
    } else if k == 12 {
      ComacMaintenanceOwned();
    } else if k == 13 {
      GamecoOwned();
    } else {
      TransNusaOwned();
    }
  }

  lemma OwnedFourth(k: nat)
    requires 15 <= k < 18
    ensures Owned(OperatorRules(), k)
  {
    if k == 15 {
      ComacOwned();
    } else if k == 16 {
      AmecoOwned();
    } else {
      ShandongTaikooOwned();
    }
  }

  lemma OwnedFifth(k: nat)
    requires 18 <= k < 20
    ensures Owned(OperatorRules(), k)
  {
    if k == 18 {
      StarcoOwned();
    } else {
      ChinaAircraftLeasingOwned();
    }
  }

  /** "无", what a missing operator becomes, is no rule's alias. */
  lemma NoneAbsent()
    ensures forall j :: 0 <= j < |OperatorRules()| ==> "无" !in OperatorRules()[j].aliases
  {
    assert
      "无" !in Tianjiao().aliases &&
      "无" !in ChinaEastern().aliases &&
      "无" !in JiangxiAir().aliases &&
      "无" !in ChinaSouthern().aliases &&
      "无" !in AirChina().aliases &&
      "无" !in ChengduAir().aliases &&
      "无" !in UrumqiAir().aliases &&
      "无" !in ChinaExpress().aliases &&
      "无" !in SuparnaAir().aliases &&
      "无" !in YtoCargo().aliases &&
      "无" !in ChinaFlying().aliases &&
      "无" !in LonghaoAir().aliases &&
      "无" !in ComacMaintenance().aliases &&
      "无" !in Gameco().aliases &&
      "无" !in TransNusa().aliases &&
      "无" !in Comac().aliases &&
      "无" !in Ameco().aliases &&
      "无" !in ShandongTaikoo().aliases &&
      "无" !in Starco().aliases &&
      "无" !in ChinaAircraftLeasing().aliases;
  }

  lemma TianjiaoDistinct()
    ensures Tianjiao().target !in ChinaEastern().aliases &&
      Tianjiao().target !in JiangxiAir().aliases &&
      Tianjiao().target !in ChinaSouthern().aliases &&
      Tianjiao().target !in AirChina().aliases &&
      Tianjiao().target !in ChengduAir().aliases &&
      Tianjiao().target !in UrumqiAir().aliases &&
      Tianjiao().target !in ChinaExpress().aliases &&
      Tianjiao().target !in SuparnaAir().aliases &&
      Tianjiao().target !in YtoCargo().aliases &&
      Tianjiao().target !in ChinaFlying().aliases &&
      Tianjiao().target !in LonghaoAir().aliases &&
      Tianjiao().target !in ComacMaintenance().aliases &&
      Tianjiao().target !in Gameco().aliases &&
      Tianjiao().target !in TransNusa().aliases &&
      Tianjiao().target !in Comac().aliases &&
      Tianjiao().target !in Ameco().aliases &&
      Tianjiao().target !in ShandongTaikoo().aliases &&
      Tianjiao().target !in Starco().aliases &&
      Tianjiao().target !in ChinaAircraftLeasing().aliases
  {
  }

  lemma TianjiaoOwned()
    ensures Owned(OperatorRules(), 0)
  {
    TianjiaoDistinct();
  }

  lemma ChinaEasternDistinct()
    ensures ChinaEastern().target !in Tianjiao().aliases &&
      ChinaEastern().target !in JiangxiAir().aliases &&
      ChinaEastern().target !in ChinaSouthern().aliases &&
      ChinaEastern().target !in AirChina().aliases &&
      ChinaEastern().target !in ChengduAir().aliases &&
      ChinaEastern().target !in UrumqiAir().aliases &&
      ChinaEastern().target !in ChinaExpress().aliases &&
      ChinaEastern().target !in SuparnaAir().aliases &&
      ChinaEastern().target !in YtoCargo().aliases &&
      ChinaEastern().target !in ChinaFlying().aliases &&
      ChinaEastern().target !in LonghaoAir().aliases &&
      ChinaEastern().target !in ComacMaintenance().aliases &&
      ChinaEastern().target !in Gameco().aliases &&
      ChinaEastern().target !in TransNusa().aliases &&
      ChinaEastern().target !in Comac().aliases &&
      ChinaEastern().target !in Ameco().aliases &&
      ChinaEastern().target !in ShandongTaikoo().aliases &&
      ChinaEastern().target !in Starco().aliases &&
      ChinaEastern().target !in ChinaAircraftLeasing().aliases
  {
  }

  lemma ChinaEasternOwned()
    ensures Owned(OperatorRules(), 1)
  {
    ChinaEasternDistinct();
  }

  lemma JiangxiAirDistinct()
    ensures JiangxiAir().target !in Tianjiao().aliases &&
      JiangxiAir().target !in ChinaEastern().aliases &&
      JiangxiAir().target !in ChinaSouthern().aliases &&
      JiangxiAir().target !in AirChina().aliases &&
      JiangxiAir().target !in ChengduAir().aliases &&
      JiangxiAir().target !in UrumqiAir().aliases &&
      JiangxiAir().target !in ChinaExpress().aliases &&
      JiangxiAir().target !in SuparnaAir().aliases &&
      JiangxiAir().target !in YtoCargo().aliases &&
      JiangxiAir().target !in ChinaFlying().aliases &&
      JiangxiAir().target !in LonghaoAir().aliases &&
      JiangxiAir().target !in ComacMaintenance().aliases &&
      JiangxiAir().target !in Gameco().aliases &&
      JiangxiAir().target !in TransNusa().aliases &&
      JiangxiAir().target !in Comac().aliases &&
      JiangxiAir().target !in Ameco().aliases &&
      JiangxiAir().target !in ShandongTaikoo().aliases &&
      JiangxiAir().target !in Starco().aliases &&
      JiangxiAir().target !in ChinaAircraftLeasing().aliases
  {
  }

  lemma JiangxiAirOwned()
    ensures Owned(OperatorRules(), 2)
  {
    JiangxiAirDistinct();
  }

  lemma ChinaSouthernDistinct()
    ensures ChinaSouthern().target !in Tianjiao().aliases &&
      ChinaSouthern().target !in ChinaEastern().aliases &&
      ChinaSouthern().target !in JiangxiAir().aliases &&
      ChinaSouthern().target !in AirChina().aliases &&
      ChinaSouthern().target !in ChengduAir().aliases &&
      ChinaSouthern().target !in UrumqiAir().aliases &&
      ChinaSouthern().target !in ChinaExpress().aliases &&
      ChinaSouthern().target !in SuparnaAir().aliases &&
      ChinaSouthern().target !in YtoCargo().aliases &&
      ChinaSouthern().target !in ChinaFlying().aliases &&
      ChinaSouthern().target !in LonghaoAir().aliases &&
      ChinaSouthern().target !in ComacMaintenance().aliases &&
      ChinaSouthern().target !in Gameco().aliases &&
      ChinaSouthern().target !in TransNusa().aliases &&
      ChinaSouthern().target !in Comac().aliases &&
      ChinaSouthern().target !in Ameco().aliases &&
      ChinaSouthern().target !in ShandongTaikoo().aliases &&
      ChinaSouthern().target !in Starco().aliases &&
      ChinaSouthern().target !in ChinaAircraftLeasing().aliases
  {
  }

  lemma ChinaSouthernOwned()
    ensures Owned(OperatorRules(), 3)
  {
    ChinaSouthernDistinct();
  }

  lemma AirChinaDistinct()
    ensures AirChina().target !in Tianjiao().aliases &&
      AirChina().target !in ChinaEastern().aliases &&
      AirChina().target !in JiangxiAir().aliases &&
      AirChina().target !in ChinaSouthern().aliases &&
      AirChina().target !in ChengduAir().aliases &&
      AirChina().target !in UrumqiAir().aliases &&
      AirChina().target !in ChinaExpress().aliases &&
      AirChina().target !in SuparnaAir().aliases &&
      AirChina().target !in YtoCargo().aliases &&
      AirChina().target !in ChinaFlying().aliases &&
      AirChina().target !in LonghaoAir().aliases &&
      AirChina().target !in ComacMaintenance().aliases &&
      AirChina().target !in Gameco().aliases &&
      AirChina().target !in TransNusa().aliases &&
      AirChina().target !in Comac().aliases &&
      AirChina().target !in Ameco().aliases &&
      AirChina().target !in ShandongTaikoo().aliases &&
      AirChina().target !in Starco().aliases &&
      AirChina().target !in ChinaAircraftLeasing().aliases
  {
  }

  lemma AirChinaOwned()
    ensures Owned(OperatorRules(), 4)
  {
    AirChinaDistinct();
  }

  lemma ChengduAirDistinct()
    ensures ChengduAir().target !in Tianjiao().aliases &&
      ChengduAir().target !in ChinaEastern().aliases &&
      ChengduAir().target !in JiangxiAir().aliases &&
      ChengduAir().target !in ChinaSouthern().aliases &&
      ChengduAir().target !in AirChina().aliases &&
      ChengduAir().target !in UrumqiAir().aliases &&
      ChengduAir().target !in ChinaExpress().aliases &&
      ChengduAir().target !in SuparnaAir().aliases &&
      ChengduAir().target !in YtoCargo().aliases &&
      ChengduAir().target !in ChinaFlying().aliases &&
      ChengduAir().target !in LonghaoAir().aliases &&
      ChengduAir().target !in ComacMaintenance().aliases &&
      ChengduAir().target !in Gameco().aliases &&
      ChengduAir().target !in TransNusa().aliases &&
      ChengduAir().target !in Comac().aliases &&
      ChengduAir().target !in Ameco().aliases &&
      ChengduAir().target !in ShandongTaikoo().aliases &&
      ChengduAir().target !in Starco().aliases &&
      ChengduAir().target !in ChinaAircraftLeasing().aliases
  {
  }

  lemma ChengduAirOwned()
    ensures Owned(OperatorRules(), 5)
  {
    ChengduAirDistinct();
  }

  lemma UrumqiAirDistinct()
    ensures UrumqiAir().target !in Tianjiao().aliases &&
      UrumqiAir().target !in ChinaEastern().aliases &&
      UrumqiAir().target !in JiangxiAir().aliases &&
      UrumqiAir().target !in ChinaSouthern().aliases &&
      UrumqiAir().target !in AirChina().aliases &&
      UrumqiAir().target !in ChengduAir().aliases &&
      UrumqiAir().target !in ChinaExpress().aliases &&
      UrumqiAir().target !in SuparnaAir().aliases &&
      UrumqiAir().target !in YtoCargo().aliases &&
      UrumqiAir().target !in ChinaFlying().aliases &&
      UrumqiAir().target !in LonghaoAir().aliases &&
      UrumqiAir().target !in ComacMaintenance().aliases &&
      UrumqiAir().target !in Gameco().aliases &&
      UrumqiAir().target !in TransNusa().aliases &&
      UrumqiAir().target !in Comac().aliases &&
      UrumqiAir().target !in Ameco().aliases &&
      UrumqiAir().target !in ShandongTaikoo().aliases &&
      UrumqiAir().target !in Starco().aliases &&
      UrumqiAir().target !in ChinaAircraftLeasing().aliases
  {
  }

  lemma UrumqiAirOwned()
    ensures Owned(OperatorRules(), 6)
  {
    UrumqiAirDistinct();
  }

  lemma ChinaExpressDistinct()
    ensures ChinaExpress().target !in Tianjiao().aliases &&
      ChinaExpress().target !in ChinaEastern().aliases &&
      ChinaExpress().target !in JiangxiAir().aliases &&
      ChinaExpress().target !in ChinaSouthern().aliases &&
      ChinaExpress().target !in AirChina().aliases &&
      ChinaExpress().target !in ChengduAir().aliases &&
      ChinaExpress().target !in UrumqiAir().aliases &&
      ChinaExpress().target !in SuparnaAir().aliases &&
      ChinaExpress().target !in YtoCargo().aliases &&
      ChinaExpress().target !in ChinaFlying().aliases &&
      ChinaExpress().target !in LonghaoAir().aliases &&
      ChinaExpress().target !in ComacMaintenance().aliases &&
      ChinaExpress().target !in Gameco().aliases &&
      ChinaExpress().target !in TransNusa().aliases &&
      ChinaExpress().target !in Comac().aliases &&
      ChinaExpress().target !in Ameco().aliases &&
      ChinaExpress().target !in ShandongTaikoo().aliases &&
      ChinaExpress().target !in Starco().aliases &&
      ChinaExpress().target !in ChinaAircraftLeasing().aliases
  {
  }

  lemma ChinaExpressOwned()
    ensures Owned(OperatorRules(), 7)
  {
    ChinaExpressDistinct();
  }

  lemma SuparnaAirDistinct()
    ensures SuparnaAir().target !in Tianjiao().aliases &&
      SuparnaAir().target !in ChinaEastern().aliases &&
      SuparnaAir().target !in JiangxiAir().aliases &&
      SuparnaAir().target !in ChinaSouthern().aliases &&
      SuparnaAir().target !in AirChina().aliases &&
      SuparnaAir().target !in ChengduAir().aliases &&
      SuparnaAir().target !in UrumqiAir().aliases &&
      SuparnaAir().target !in ChinaExpress().aliases &&
      SuparnaAir().target !in YtoCargo().aliases &&
      SuparnaAir().target !in ChinaFlying().aliases &&
      SuparnaAir().target !in LonghaoAir().aliases &&
      SuparnaAir().target !in ComacMaintenance().aliases &&
      SuparnaAir().target !in Gameco().aliases &&
      SuparnaAir().target !in TransNusa().aliases &&
      SuparnaAir().target !in Comac().aliases &&
      SuparnaAir().target !in Ameco().aliases &&
      SuparnaAir().target !in ShandongTaikoo().aliases &&
      SuparnaAir().target !in Starco().aliases &&
      SuparnaAir().target !in ChinaAircraftLeasing().aliases
  {
  }

  lemma SuparnaAirOwned()
    ensures Owned(OperatorRules(), 8)
  {
    SuparnaAirDistinct();
  }

  lemma YtoCargoDistinct()
    ensures YtoCargo().target !in Tianjiao().aliases &&
      YtoCargo().target !in ChinaEastern().aliases &&
      YtoCargo().target !in JiangxiAir().aliases &&
      YtoCargo().target !in ChinaSouthern().aliases &&
      YtoCargo().target !in AirChina().aliases &&
      YtoCargo().target !in ChengduAir().aliases &&
      YtoCargo().target !in UrumqiAir().aliases &&
      YtoCargo().target !in ChinaExpress().aliases &&
      YtoCargo().target !in SuparnaAir().aliases &&
      YtoCargo().target !in ChinaFlying().aliases &&
      YtoCargo().target !in LonghaoAir().aliases &&
      YtoCargo().target !in ComacMaintenance().aliases &&
      YtoCargo().target !in Gameco().aliases &&
      YtoCargo().target !in TransNusa().aliases &&
      YtoCargo().target !in Comac().aliases &&
      YtoCargo().target !in Ameco().aliases &&
      YtoCargo().target !in ShandongTaikoo().aliases &&
      YtoCargo().target !in Starco().aliases &&
      YtoCargo().target !in ChinaAircraftLeasing().aliases
  {
  }

  lemma YtoCargoOwned()
    ensures Owned(OperatorRules(), 9)
  {
    YtoCargoDistinct();
  }

  lemma ChinaFlyingDistinct()
    ensures ChinaFlying().target !in Tianjiao().aliases &&
      ChinaFlying().target !in ChinaEastern().aliases &&
      ChinaFlying().target !in JiangxiAir().aliases &&
      ChinaFlying().target !in ChinaSouthern().aliases &&
      ChinaFlying().target !in AirChina().aliases &&
      ChinaFlying().target !in ChengduAir().aliases &&
      ChinaFlying().target !in UrumqiAir().aliases &&
      ChinaFlying().target !in ChinaExpress().aliases &&
      ChinaFlying().target !in SuparnaAir().aliases &&
      ChinaFlying().target !in YtoCargo().aliases &&
      ChinaFlying().target !in LonghaoAir().aliases &&
      ChinaFlying().target !in ComacMaintenance().aliases &&
      ChinaFlying().target !in Gameco().aliases &&
      ChinaFlying().target !in TransNusa().aliases &&
      ChinaFlying().target !in Comac().aliases &&
      ChinaFlying().target !in Ameco().aliases &&
      ChinaFlying().target !in ShandongTaikoo().aliases &&
      ChinaFlying().target !in Starco().aliases &&
      ChinaFlying().target !in ChinaAircraftLeasing().aliases
  {
  }

  lemma ChinaFlyingOwned()
    ensures Owned(OperatorRules(), 10)
  {
    ChinaFlyingDistinct();
  }

  lemma LonghaoAirDistinct()
    ensures LonghaoAir().target !in Tianjiao().aliases &&
      LonghaoAir().target !in ChinaEastern().aliases &&
      LonghaoAir().target !in JiangxiAir().aliases &&
      LonghaoAir().target !in ChinaSouthern().aliases &&
      LonghaoAir().target !in AirChina().aliases &&
      LonghaoAir().target !in ChengduAir().aliases &&
      LonghaoAir().target !in UrumqiAir().aliases &&
      LonghaoAir().target !in ChinaExpress().aliases &&
      LonghaoAir().target !in SuparnaAir().aliases &&
      LonghaoAir().target !in YtoCargo().aliases &&
      LonghaoAir().target !in ChinaFlying().aliases &&
      LonghaoAir().target !in ComacMaintenance().aliases &&
      LonghaoAir().target !in Gameco().aliases &&
      LonghaoAir().target !in TransNusa().aliases &&
      LonghaoAir().target !in Comac().aliases &&
      LonghaoAir().target !in Ameco().aliases &&
      LonghaoAir().target !in ShandongTaikoo().aliases &&
      LonghaoAir().target !in Starco().aliases &&
      LonghaoAir().target !in ChinaAircraftLeasing().aliases
  {
  }

  lemma LonghaoAirOwned()
    ensures Owned(OperatorRules(), 11)
  {
    LonghaoAirDistinct();
  }

  lemma ComacMaintenanceDistinct()
    ensures ComacMaintenance().target !in Tianjiao().aliases &&
      ComacMaintenance().target !in ChinaEastern().aliases &&
      ComacMaintenance().target !in JiangxiAir().aliases &&
      ComacMaintenance().target !in ChinaSouthern().aliases &&
      ComacMaintenance().target !in AirChina().aliases &&
      ComacMaintenance().target !in ChengduAir().aliases &&
      ComacMaintenance().target !in UrumqiAir().aliases &&
      ComacMaintenance().target !in ChinaExpress().aliases &&
      ComacMaintenance().target !in SuparnaAir().aliases &&
      ComacMaintenance().target !in YtoCargo().aliases &&
      ComacMaintenance().target !in ChinaFlying().aliases &&
      ComacMaintenance().target !in LonghaoAir().aliases &&
      ComacMaintenance().target !in Gameco().aliases &&
      ComacMaintenance().target !in TransNusa().aliases &&
      ComacMaintenance().target !in Comac().aliases &&
      ComacMaintenance().target !in Ameco().aliases &&
      ComacMaintenance().target !in ShandongTaikoo().aliases &&
      ComacMaintenance().target !in Starco().aliases &&
      ComacMaintenance().target !in ChinaAircraftLeasing().aliases
  {
  }

  lemma ComacMaintenanceOwned()
    ensures Owned(OperatorRules(), 12)
  {
    ComacMaintenanceDistinct();
  }

  lemma GamecoDistinct()
    ensures Gameco().target !in Tianjiao().aliases &&
      Gameco().target !in ChinaEastern().aliases &&
      Gameco().target !in JiangxiAir().aliases &&
      Gameco().target !in ChinaSouthern().aliases &&
      Gameco().target !in AirChina().aliases &&
      Gameco().target !in ChengduAir().aliases &&
      Gameco().target !in UrumqiAir().aliases &&
      Gameco().target !in ChinaExpress().aliases &&
      Gameco().target !in SuparnaAir().aliases &&
      Gameco().target !in YtoCargo().aliases &&
      Gameco().target !in ChinaFlying().aliases &&
      Gameco().target !in LonghaoAir().aliases &&
      Gameco().target !in ComacMaintenance().aliases &&
      Gameco().target !in TransNusa().aliases &&
      Gameco().target !in Comac().aliases &&
      Gameco().target !in Ameco().aliases &&
      Gameco().target !in ShandongTaikoo().aliases &&
      Gameco().target !in Starco().aliases &&
      Gameco().target !in ChinaAircraftLeasing().aliases
  {
  }

  lemma GamecoOwned()
    ensures Owned(OperatorRules(), 13)
  {
    GamecoDistinct();
  }

  lemma TransNusaDistinct()
    ensures TransNusa().target !in Tianjiao().aliases &&
      TransNusa().target !in ChinaEastern().aliases &&
      TransNusa().target !in JiangxiAir().aliases &&
      TransNusa().target !in ChinaSouthern().aliases &&
      TransNusa().target !in AirChina().aliases &&
      TransNusa().target !in ChengduAir().aliases &&
      TransNusa().target !in UrumqiAir().aliases &&
      TransNusa().target !in ChinaExpress().aliases &&
      TransNusa().target !in SuparnaAir().aliases &&
      TransNusa().target !in YtoCargo().aliases &&
      TransNusa().target !in ChinaFlying().aliases &&
      TransNusa().target !in LonghaoAir().aliases &&
      TransNusa().target !in ComacMaintenance().aliases &&
      TransNusa().target !in Gameco().aliases &&
      TransNusa().target !in Comac().aliases &&
      TransNusa().target !in Ameco().aliases &&
      TransNusa().target !in ShandongTaikoo().aliases &&
      TransNusa().target !in Starco().aliases &&
      TransNusa().target !in ChinaAircraftLeasing().aliases
  {
  }

  lemma TransNusaOwned()
    ensures Owned(OperatorRules(), 14)
  {
    TransNusaDistinct();
  }

  lemma ComacDistinct()
    ensures Comac().target !in Tianjiao().aliases &&
      Comac().target !in ChinaEastern().aliases &&
      Comac().target !in JiangxiAir().aliases &&
      Comac().target !in ChinaSouthern().aliases &&
      Comac().target !in AirChina().aliases &&
      Comac().target !in ChengduAir().aliases &&
      Comac().target !in UrumqiAir().aliases &&
      Comac().target !in ChinaExpress().aliases &&
      Comac().target !in SuparnaAir().aliases &&
      Comac().target !in YtoCargo().aliases &&
      Comac().target !in ChinaFlying().aliases &&
      Comac().target !in LonghaoAir().aliases &&
      Comac().target !in ComacMaintenance().aliases &&
      Comac().target !in Gameco().aliases &&
      Comac().target !in TransNusa().aliases &&
      Comac().target !in Ameco().aliases &&
      Comac().target !in ShandongTaikoo().aliases &&
      Comac().target !in Starco().aliases &&
      Comac().target !in ChinaAircraftLeasing().aliases
  {
  }

  lemma ComacOwned()
    ensures Owned(OperatorRules(), 15)
  {
    ComacDistinct();
  }

  lemma AmecoDistinct()
    ensures Ameco().target !in Tianjiao().aliases &&
      Ameco().target !in ChinaEastern().aliases &&
      Ameco().target !in JiangxiAir().aliases &&
      Ameco().target !in ChinaSouthern().aliases &&
      Ameco().target !in AirChina().aliases &&
      Ameco().target !in ChengduAir().aliases &&
      Ameco().target !in UrumqiAir().aliases &&
      Ameco().target !in ChinaExpress().aliases &&
      Ameco().target !in SuparnaAir().aliases &&
      Ameco().target !in YtoCargo().aliases &&
      Ameco().target !in ChinaFlying().aliases &&
      Ameco().target !in LonghaoAir().aliases &&
      Ameco().target !in ComacMaintenance().aliases &&
      Ameco().target !in Gameco().aliases &&
      Ameco().target !in TransNusa().aliases &&
      Ameco().target !in Comac().aliases &&
      Ameco().target !in ShandongTaikoo().aliases &&
      Ameco().target !in Starco().aliases &&
      Ameco().target !in ChinaAircraftLeasing().aliases
  {
  }

  lemma AmecoOwned()
    ensures Owned(OperatorRules(), 16)
  {
    AmecoDistinct();
  }

  lemma ShandongTaikooDistinct()
    ensures ShandongTaikoo().target !in Tianjiao().aliases &&
      ShandongTaikoo().target !in ChinaEastern().aliases &&
      ShandongTaikoo().target !in JiangxiAir().aliases &&
      ShandongTaikoo().target !in ChinaSouthern().aliases &&
      ShandongTaikoo().target !in AirChina().aliases &&
      ShandongTaikoo().target !in ChengduAir().aliases &&
      ShandongTaikoo().target !in UrumqiAir().aliases &&
      ShandongTaikoo().target !in ChinaExpress().aliases &&
      ShandongTaikoo().target !in SuparnaAir().aliases &&
      ShandongTaikoo().target !in YtoCargo().aliases &&
      ShandongTaikoo().target !in ChinaFlying().aliases &&
      ShandongTaikoo().target !in LonghaoAir().aliases &&
      ShandongTaikoo().target !in ComacMaintenance().aliases &&
      ShandongTaikoo().target !in Gameco().aliases &&
      ShandongTaikoo().target !in TransNusa().aliases &&
      ShandongTaikoo().target !in Comac().aliases &&
      ShandongTaikoo().target !in Ameco().aliases &&
      ShandongTaikoo().target !in Starco().aliases &&
      ShandongTaikoo().target !in ChinaAircraftLeasing().aliases
  {
  }

  lemma ShandongTaikooOwned()
    ensures Owned(OperatorRules(), 17)
  {
    ShandongTaikooDistinct();
  }

  lemma StarcoDistinct()
    ensures Starco().target !in Tianjiao().aliases &&
      Starco().target !in ChinaEastern().aliases &&
      Starco().target !in JiangxiAir().aliases &&
      Starco().target !in ChinaSouthern().aliases &&
      Starco().target !in AirChina().aliases &&
      Starco().target !in ChengduAir().aliases &&
      Starco().target !in UrumqiAir().aliases &&
      Starco().target !in ChinaExpress().aliases &&
      Starco().target !in SuparnaAir().aliases &&
      Starco().target !in YtoCargo().aliases &&
      Starco().target !in ChinaFlying().aliases &&
      Starco().target !in LonghaoAir().aliases &&
      Starco().target !in ComacMaintenance().aliases &&
      Starco().target !in Gameco().aliases &&
      Starco().target !in TransNusa().aliases &&
      Starco().target !in Comac().aliases &&
      Starco().target !in Ameco().aliases &&
      Starco().target !in ShandongTaikoo().aliases &&
      Starco().target !in ChinaAircraftLeasing().aliases
  {
  }

  lemma StarcoOwned()
    ensures Owned(OperatorRules(), 18)
  {
    StarcoDistinct();
  }

  lemma ChinaAircraftLeasingDistinct()
    ensures ChinaAircraftLeasing().target !in Tianjiao().aliases &&
      ChinaAircraftLeasing().target !in ChinaEastern().aliases &&
      ChinaAircraftLeasing().target !in JiangxiAir().aliases &&
      ChinaAircraftLeasing().target !in ChinaSouthern().aliases &&
      ChinaAircraftLeasing().target !in AirChina().aliases &&
      ChinaAircraftLeasing().target !in ChengduAir().aliases &&
      ChinaAircraftLeasing().target !in UrumqiAir().aliases &&
      ChinaAircraftLeasing().target !in ChinaExpress().aliases &&
      ChinaAircraftLeasing().target !in SuparnaAir().aliases &&
      ChinaAircraftLeasing().target !in YtoCargo().aliases &&
      ChinaAircraftLeasing().target !in ChinaFlying().aliases &&
      ChinaAircraftLeasing().target !in LonghaoAir().aliases &&
      ChinaAircraftLeasing().target !in ComacMaintenance().aliases &&
      ChinaAircraftLeasing().target !in Gameco().aliases &&
      ChinaAircraftLeasing().target !in TransNusa().aliases &&
      ChinaAircraftLeasing().target !in Comac().aliases &&
      ChinaAircraftLeasing().target !in Ameco().aliases &&
      ChinaAircraftLeasing().target !in ShandongTaikoo().aliases &&
      ChinaAircraftLeasing().target !in Starco().aliases
  {
  }

  lemma ChinaAircraftLeasingOwned()
    ensures Owned(OperatorRules(), 19)
  {
    ChinaAircraftLeasingDistinct();
  }

  // ---------------------------------------------------------------------------
  // clean_aircraft_type

  /** `re.sub(".*T.*", T, v)`: `.` stops at a line break, so every line that
      mentions the token becomes the token and the other lines stay. */
  function CollapseMatching(v: string, token: string): (r: string)
    requires '\n' !in token
    ensures Split(r, '\n') == CollapseLines(Split(v, '\n'), token)
  {
    var lines := CollapseLines(Split(v, '\n'), token);
    JoinSplit(lines, '\n');
    Join(lines, "\n")
  }

  function CollapseLines(lines: seq<string>, token: string): (r: seq<string>)
    requires '\n' !in token
    requires forall i :: 0 <= i < |lines| ==> '\n' !in lines[i]
    ensures |r| == |lines|
    ensures forall i :: 0 <= i < |r| ==> '\n' !in r[i]
  {
    seq(|lines|, i requires 0 <= i < |lines| => if Contains(lines[i], token) then token else lines[i])
  }

  /** `clean_aircraft_type` on one cell: a missing model becomes "无", then
      the ARJ21 and the C919 lines collapse to the bare model name. */
  function CanonicalAircraft(c: Cell): (r: Cell)
    ensures r.Str?
  {
    var v := match c case Null => "无" case Str(s) => s;
    Str(CollapseMatching(CollapseMatching(v, "ARJ21"), "C919"))
  }

  /** The reference reading of one line: ARJ21 wins over C919, and a line
      naming neither is kept. */
  function AircraftLine(line: string): string {
    if Contains(line, "ARJ21") then "ARJ21"
    else if Contains(line, "C919") then "C919"
    else line
  }

  lemma TokenFacts()
    ensures Contains("ARJ21", "ARJ21") && !Contains("ARJ21", "C919")
    ensures Contains("C919", "C919") && !Contains("C919", "ARJ21")
    ensures !Contains("无", "ARJ21") && !Contains("无", "C919")
  {
    ContainsSkip("ARJ21", "", "C919");
    assert "ARJ21" + "" == "ARJ21";
    ContainsSkip("C919", "", "ARJ21");
    assert "C919" + "" == "C919";
    ContainsSkip("无", "", "ARJ21");
    ContainsSkip("无", "", "C919");
    assert "无" + "" == "无";
  }

  /** Line by line, the canonical model is the reference reading. */
  lemma AircraftLines(v: string)
    ensures var lines := Split(v, '\n');
      Split(CanonicalAircraft(Str(v)).s, '\n') == seq(|lines|, i requires 0 <= i < |lines| => AircraftLine(lines[i]))
  {
    TokenFacts();
  }

  /** A one-line cell: a model naming ARJ21 becomes "ARJ21", else one naming
      C919 becomes "C919", else it is kept; a missing model becomes "无". */
  lemma AircraftMeaning(c: Cell)
    ensures c.Null? ==> CanonicalAircraft(c) == Str("无")
    ensures c.Str? && '\n' !in c.s ==> CanonicalAircraft(c) == Str(AircraftLine(c.s))
  {
    TokenFacts();
    var v := match c case Null => "无" case Str(s) => s;
    if c.Null? || '\n' !in c.s {
      assert '\n' !in v;
      SplitNoSep(v, '\n');
      AircraftLines(v);
      var r := CanonicalAircraft(c).s;
      var line := AircraftLine(v);
      assert '\n' !in line;
      SplitNoSep(line, '\n');
      SplitInjective(r, line, '\n');
    }
  }

  /** Canonicalising a model twice is canonicalising it once. */
  lemma AircraftIdempotent(c: Cell)
    ensures CanonicalAircraft(CanonicalAircraft(c)) == CanonicalAircraft(c)
  {
    var r := CanonicalAircraft(c).s;
    var v := match c case Null => "无" case Str(s) => s;
    var lines := Split(v, '\n');
    AircraftLines(v);
    AircraftLines(r);
    var l1 := Split(r, '\n');
    var l2 := Split(CanonicalAircraft(Str(r)).s, '\n');
    forall i | 0 <= i < |l1| ensures l2[i] == l1[i] {
      AircraftLineIdempotent(lines[i]);
    }
    SplitInjective(CanonicalAircraft(Str(r)).s, r, '\n');
  }

  lemma AircraftLineIdempotent(line: string)
    ensures AircraftLine(AircraftLine(line)) == AircraftLine(line)
  {
    TokenFacts();
  }

  // ---------------------------------------------------------------------------
  // Serial numbers (the fault and part-replacement processors)

  /** The decimal digits of a text, in order (`re.sub(r"\D", "", s)`). */
  function Digits(s: string): (r: string)
    ensures AllDigits(r)
  {
    var r := Filter(s, IsDigit);
    assert AllDigits(r) by {
      forall i | 0 <= i < |r| ensures IsDigit(r[i]) {
        assert r[i] in r;
      }
    }
    r
  }

  /** `飞机序列号`: the cell as text, its non-digits removed, zero-filled to
      five digits. */
  function NormaliseSerial(c: Cell): (r: Cell)
    ensures r.Str? && AllDigits(r.s)
  {
    ZFillValue(Digits(AsText(c)), 5);
    Str(ZFill(Digits(AsText(c)), 5))
  }

  /** The digits of the cell, in order, padded on the left with zeros to
      five characters, so the serial's value is kept; a serial of five or
      more digits keeps its length. */
  lemma SerialMeaning(c: Cell)
    ensures var digits := Digits(AsText(c));
      var r := NormaliseSerial(c).s;
      |r| == (if |digits| >= 5 then |digits| else 5)
      && r[|r| - |digits|..] == digits
      && (forall i :: 0 <= i < |r| - |digits| ==> r[i] == '0')
      && DigitsValue(r) == DigitsValue(digits)
  {
    ZFillValue(Digits(AsText(c)), 5);
  }

  /** A missing serial becomes "00000". */
  lemma SerialMissing()
    ensures NormaliseSerial(Null) == Str("00000")
  {
    assert Digits("nan") == "";
  }

  /** A normalised serial is normalised already. */
  lemma SerialIdempotent(c: Cell)
    ensures NormaliseSerial(NormaliseSerial(c)) == NormaliseSerial(c)
  {
    var r := NormaliseSerial(c).s;
    FilterAll(r, IsDigit);
  }
}
