/**
 * The recipe heuristic (`/analyze`), identical in both applications: two
 * fixed thresholds, checked boil time first, each adding one issue label.
 */
module Recipe {
  import opened Wrappers

  const Dms: string := "DMS (Dimethyl Sulfide)"
  const HotAlcohol: string := "Alcoholic (Hot)"
  /** A boil shorter than this many minutes risks DMS. */
  const MinBoilMinutes: int := 60
  /** A fermentation warmer than this many degrees Fahrenheit risks hot alcohols. */
  const MaxFermentFahrenheit: real := 70.0

  /**
   * The issues flagged for a boil time and a fermentation temperature:
   * DMS exactly when the boil is under 60 minutes, hot alcohols exactly when
   * the temperature is over 70 °F, DMS first, nothing else and no repeats.
   */
  function Analyze(boilTime: int, fermentTemp: real): (issues: seq<string>)
    ensures Dms in issues <==> boilTime < MinBoilMinutes
    ensures HotAlcohol in issues <==> fermentTemp > MaxFermentFahrenheit
    ensures forall x :: x in issues ==> x == Dms || x == HotAlcohol
    ensures |issues| <= 2
    ensures |issues| == 2 ==> issues == [Dms, HotAlcohol]
  {
    (if boilTime < MinBoilMinutes then [Dms] else []) +
    (if fermentTemp > MaxFermentFahrenheit then [HotAlcohol] else [])
  }

  /** The two labels differ, so an issue list never repeats an entry. */
  lemma AnalyzeNoRepeats(boilTime: int, fermentTemp: real)
    ensures var issues := Analyze(boilTime, fermentTemp);
      forall i, j :: 0 <= i < j < |issues| ==> issues[i] != issues[j]
  {
    assert Dms[0] != HotAlcohol[0];
  }

  /** The four cases the heuristic distinguishes. */
  lemma AnalyzeExamples()
    ensures Analyze(45, 65.0) == [Dms]
    ensures Analyze(90, 75.0) == [HotAlcohol]
    ensures Analyze(45, 75.0) == [Dms, HotAlcohol]
    ensures Analyze(90, 65.0) == []
    ensures Analyze(60, 70.0) == []
  {
  }

  /**
   * A request to the analysis page. The two form fields arrive already
   * parsed; `None` stands for a field that is missing from the form.
   */
  datatype RecipeRequest = RecipeGet | RecipePost(boilTime: Option<int>, fermentTemp: Option<real>)

  /** What the analysis page receives: the inputs (None before a POST) and the issue list. */
  datatype AnalysisPage = AnalysisPage(boilTime: Option<int>, fermentTemp: Option<real>, issues: seq<string>)

  /**
   * `analyze_recipe()`. A GET leaves everything unset and flags nothing; a
   * POST reads both fields, a missing field counting as 0, and appends the
   * issue of each threshold crossed, boil time first.
   */
  method AnalyzeRecipe(request: RecipeRequest) returns (page: AnalysisPage)
    ensures request.RecipeGet? ==> page == AnalysisPage(None, None, [])
    ensures request.RecipePost? ==>
      page.boilTime == Some(request.boilTime.GetOr(0)) &&
      page.fermentTemp == Some(request.fermentTemp.GetOr(0.0)) &&
      page.issues == Analyze(page.boilTime.value, page.fermentTemp.value)
  {
    var boilTime: Option<int> := None;
    var fermentTemp: Option<real> := None;
    var potentialIssues: seq<string> := [];
    if request.RecipePost? {
      var boil := request.boilTime.GetOr(0);
      var temp := request.fermentTemp.GetOr(0.0);
      boilTime, fermentTemp := Some(boil), Some(temp);
      if boil < MinBoilMinutes {
        potentialIssues := potentialIssues + [Dms];
      }
      if temp > MaxFermentFahrenheit {
        potentialIssues := potentialIssues + [HotAlcohol];
      }
    }
    page := AnalysisPage(boilTime, fermentTemp, potentialIssues);
  }
}
