/** The skill aggregator of `backend/src/services/buyablesService.js`:
    validates a skill name, loads that skill's recipe catalog, obtains the
    latest prices, computes every recipe's metrics and ranks them. The
    `lastUpdated` wall-clock stamps are not modelled. */
module Buyables {
  import opened Results
  import opened Text
  import opened PriceData
  import opened TtlCache
  import opened WikiService
  import opened Metrics
  import opened Ranking

  const AvailableSkills: seq<string> := ["herblore", "prayer", "cooking", "crafting", "smithing"]

  /** The outcome of reading a skill's catalog file: its parsed content, no
      such file (`ENOENT`), or any other read or parse error, carrying its
      message. */
  datatype SkillFile = Parsed(catalog: Catalog) | Missing | Unreadable(message: string)

  /** A parsed catalog: a well-shaped list of recipes, or content of another
      shape (no item list, an item without materials or identifier), which
      fails only when the items are priced, with the message of the error
      raised there. */
  datatype Catalog = Recipes(items: seq<Recipe>) | Misshapen(message: string)

  datatype Report = Report(skill: string, items: seq<CalculatedItem>)

  /** The names, in order, with `sep` between each two neighbours. */
  function Join(names: seq<string>, sep: string): (r: string)
    ensures |names| == 0 ==> r == ""
    ensures |names| == 1 ==> r == names[0]
    ensures forall i :: 0 <= i < |names| ==> Occurs(names[i], r)
    decreases |names|
  {
    if |names| == 0 then ""
    else if |names| == 1 then
      assert OccursAt(names[0], names[0], 0);
      names[0]
    else
      var rest := Join(names[1..], sep);
      var r := names[0] + (sep + rest);
      forall i | 0 <= i < |names|
        ensures Occurs(names[i], r)
      {
        OccursInConcat(names[i], names[0], sep + rest);
        OccursInConcat(names[i], sep, rest);
        if i == 0 {
          assert OccursAt(names[0], names[0], 0);
        } else {
          assert names[i] == names[1..][i - 1];
        }
      }
      assert names[0] + sep + rest == r;
      r
  }

  /** `name` appears somewhere in `text`. */
  predicate Occurs(name: string, text: string)
  {
    exists i :: 0 <= i <= |text| && OccursAt(name, text, i)
  }

  /** `name` appears in `text` starting at index `i`. */
  predicate OccursAt(name: string, text: string, i: int)
  {
    0 <= i <= |text| - |name| && text[i..i + |name|] == name
  }

  /** An occurrence in a part is an occurrence in the whole. */
  lemma OccursInConcat(name: string, a: string, b: string)
    ensures Occurs(name, a) ==> Occurs(name, a + b)
    ensures Occurs(name, b) ==> Occurs(name, a + b)
  {
    if Occurs(name, a) {
      var i :| 0 <= i <= |a| && OccursAt(name, a, i);
      assert OccursAt(name, a + b, i) by {
        assert (a + b)[i..i + |name|] == a[i..i + |name|];
      }
    }
    if Occurs(name, b) {
      var j :| 0 <= j <= |b| && OccursAt(name, b, j);
      assert 0 <= j <= |b| - |name| && b[j..j + |name|] == name;
      assert (a + b)[|a| + j..|a| + j + |name|] == b[j..j + |name|];
      assert OccursAt(name, a + b, |a| + j);
    }
  }

  /** The supported skills as the invalid-skill message lists them. */
  const SkillListing: string :=
    "herblore" + (", " + ("prayer" + (", " + ("cooking" + (", " + ("crafting" + (", " + "smithing")))))))

  /** The listing is the supported skills joined with a comma and a space. */
  lemma SkillListingIsJoin()
    ensures SkillListing == Join(AvailableSkills, ", ")
  {
    var t := AvailableSkills;
    assert t[4..] == ["smithing"];
    assert t[3..][1..] == t[4..] && t[2..][1..] == t[3..] && t[1..][1..] == t[2..];
  }

  /** Every supported skill occurs in the listing. */
  lemma SkillListingMentionsAll()
    ensures forall i :: 0 <= i < |AvailableSkills| ==> Occurs(AvailableSkills[i], SkillListing)
  {
    SkillListingIsJoin();
  }

  /** The message of the error raised for an unknown skill name: it repeats
      the name as given and then lists every supported skill. */
  function InvalidSkillMessage(skill: string): (m: string)
    ensures |m| > 15 + |skill| && m[..15 + |skill|] == "Invalid skill: " + skill
    ensures forall i :: 0 <= i < |AvailableSkills| ==> Occurs(AvailableSkills[i], m[15 + |skill|..])
  {
    var m := "Invalid skill: " + skill + ". Available: " + SkillListing;
    SkillListingMentionsAll();
    assert m[15 + |skill|..] == ". Available: " + SkillListing;
    forall i | 0 <= i < |AvailableSkills|
      ensures Occurs(AvailableSkills[i], m[15 + |skill|..])
    {
      OccursInConcat(AvailableSkills[i], ". Available: ", SkillListing);
    }
    m
  }

  /** `getAvailableSkills()`: the five supported skills, each already lower
      case, so each is accepted as it is and returned unchanged. */
  function GetAvailableSkills(): (skills: seq<string>)
    ensures skills == ["herblore", "prayer", "cooking", "crafting", "smithing"]
    ensures forall i :: 0 <= i < |skills| ==> IsLower(skills[i]) && ValidateSkill(skills[i]) == Ok(skills[i])
  {
    forall i | 0 <= i < |AvailableSkills|
      ensures IsLower(AvailableSkills[i]) && ValidateSkill(AvailableSkills[i]) == Ok(AvailableSkills[i])
    {
      assert IsLower(AvailableSkills[i]);
      LowerOfLower(AvailableSkills[i]);
    }
    AvailableSkills
  }

  /** The validation step: the lower-cased name when it is a supported skill,
      otherwise an error naming the input as given and listing all five. */
  function ValidateSkill(skill: string): (r: Result<string>)
    ensures r.Ok? <==> Lower(skill) in ["herblore", "prayer", "cooking", "crafting", "smithing"]
    ensures r.Ok? ==> r.value == Lower(skill) && IsLower(r.value)
    ensures r.Err? ==> r.message == InvalidSkillMessage(skill)
  {
    LowerIsIdempotent(skill);
    var normalized := Lower(skill);
    if normalized in AvailableSkills then Ok(normalized) else Err(InvalidSkillMessage(skill))
  }

  /** Validation ignores case: a name and its lower-cased form are accepted or
      rejected together, and accepted ones normalise to the same name. */
  lemma ValidationIgnoresCase(skill: string)
    ensures ValidateSkill(skill).Ok? <==> ValidateSkill(Lower(skill)).Ok?
    ensures ValidateSkill(skill).Ok? ==> ValidateSkill(skill) == ValidateSkill(Lower(skill))
  {
    LowerIsIdempotent(skill);
  }

  /** `loadSkillData(skill)` given the outcome of reading the skill's file:
      the parsed catalog, the not-found error naming the skill, or the read
      or parse error passed on as it is. */
  function LoadSkillData(skill: string, file: SkillFile): (r: Result<Catalog>)
    ensures file.Parsed? <==> r.Ok?
    ensures file.Parsed? ==> r.value == file.catalog
    ensures file.Missing? ==> r == Err("Skill data not found for: " + skill)
    ensures file.Unreadable? ==> r == Err(file.message)
  {
    match file
    case Parsed(catalog) => Ok(catalog)
    case Missing => Err("Skill data not found for: " + skill)
    case Unreadable(message) => Err(message)
  }

  /** The pricing pass over a catalog: every recipe's metrics, in catalog order. */
  function CalculateAll(recipes: seq<Recipe>, prices: Snapshot): (r: seq<CalculatedItem>)
    ensures |r| == |recipes|
    ensures forall i :: 0 <= i < |recipes| ==> r[i] == CalculateItemMetrics(recipes[i], prices)
  {
    seq(|recipes|, i requires 0 <= i < |recipes| => CalculateItemMetrics(recipes[i], prices))
  }

  /** `getBuyablesForSkill(skill)`. `catalog` gives the outcome of reading a
      skill's file; the price request settles as `fetch`, see `GetLatestPrices`.
      The name is validated and the file read before any price is requested;
      the catalog's shape is found wanting only once prices are in hand. */
  function GetBuyablesForSkill(skill: string, catalog: string -> SkillFile, c: Cache<Payload>,
                               readAt: int, fetch: Fetch<Snapshot>, doneAt: int)
    : (out: (Result<Report>, Cache<Payload>))
    requires WellTyped(c)
    ensures WellTyped(out.1)
    ensures ValidateSkill(skill).Err? ==> out == (Err(InvalidSkillMessage(skill)), c)
    ensures ValidateSkill(skill).Ok? && catalog(Lower(skill)).Missing? ==>
              out == (Err("Skill data not found for: " + Lower(skill)), c)
    ensures ValidateSkill(skill).Ok? && catalog(Lower(skill)).Unreadable? ==>
              out == (Err(catalog(Lower(skill)).message), c)
    ensures ValidateSkill(skill).Ok? && catalog(Lower(skill)).Parsed? ==>
              out.1 == GetLatestPrices(c, readAt, fetch, doneAt).1
    ensures ValidateSkill(skill).Ok? && catalog(Lower(skill)).Parsed?
            && catalog(Lower(skill)).catalog.Misshapen? && GetLatestPrices(c, readAt, fetch, doneAt).0.Ok? ==>
              out.0 == Err(catalog(Lower(skill)).catalog.message)
    ensures ValidateSkill(skill).Ok? && catalog(Lower(skill)).Parsed?
            && catalog(Lower(skill)).catalog.Recipes? && GetLatestPrices(c, readAt, fetch, doneAt).0.Ok? ==>
              out.0.Ok?
    ensures out.0.Ok? ==>
              && ValidateSkill(skill).Ok?
              && out.0.value.skill == Lower(skill)
              && catalog(Lower(skill)).Parsed?
              && catalog(Lower(skill)).catalog.Recipes?
              && GetLatestPrices(c, readAt, fetch, doneAt).0.Ok?
              && var recipes := catalog(Lower(skill)).catalog.items;
                 var prices := GetLatestPrices(c, readAt, fetch, doneAt).0.value;
                 var items := out.0.value.items;
                 && |items| == |recipes|
                 && Sorted(items)
                 && multiset(items) == multiset(CalculateAll(recipes, prices))
                 && forall k :: WithRatio(items, k) == WithRatio(CalculateAll(recipes, prices), k)
  {
    match ValidateSkill(skill)
    case Err(message) => (Err(message), c)
    case Ok(normalized) =>
      match LoadSkillData(normalized, catalog(normalized))
      case Err(message) => (Err(message), c)
      case Ok(parsed) =>
        var (prices, c') := GetLatestPrices(c, readAt, fetch, doneAt);
        match prices
        case Err(message) => (Err(message), c')
        case Ok(snapshot) =>
          match parsed
          case Misshapen(message) => (Err(message), c')
          case Recipes(recipes) =>
            var calculated := CalculateAll(recipes, snapshot);
            var ranked := SortByRatio(calculated);
            assert forall k :: WithRatio(ranked, k) == WithRatio(calculated, k) by {
              forall k ensures WithRatio(ranked, k) == WithRatio(calculated, k) {
                SortIsStable(calculated, k);
              }
            }
            (Ok(Report(normalized, ranked)), c')
  }

  /** When the skill is valid and its file parses but no prices can be had,
      the price error reaches the caller unchanged, whatever the catalog's
      shape. */
  lemma PriceFailurePropagates(skill: string, catalog: string -> SkillFile, c: Cache<Payload>,
                               readAt: int, fetch: Fetch<Snapshot>, doneAt: int)
    requires WellTyped(c)
    requires ValidateSkill(skill).Ok? && catalog(Lower(skill)).Parsed?
    requires GetLatestPrices(c, readAt, fetch, doneAt).0.Err?
    ensures GetBuyablesForSkill(skill, catalog, c, readAt, fetch, doneAt) ==
            (Err(GetLatestPrices(c, readAt, fetch, doneAt).0.message), GetLatestPrices(c, readAt, fetch, doneAt).1)
  {
  }

  /** A name that is not a supported skill, such as "alchemy", is rejected
      before anything is loaded or fetched. */
  lemma UnknownSkillRejected(catalog: string -> SkillFile, c: Cache<Payload>,
                             readAt: int, fetch: Fetch<Snapshot>, doneAt: int)
    requires WellTyped(c)
    ensures GetBuyablesForSkill("alchemy", catalog, c, readAt, fetch, doneAt) ==
            (Err(InvalidSkillMessage("alchemy")), c)
  {
    assert IsLower("alchemy");
    LowerOfLower("alchemy");
  }

  /** Lower-casing is not confined to ASCII: a name spelled with the Kelvin
      sign, such as "COO\U{212A}ING", lower-cases to "cooking" and is accepted. */
  lemma KelvinSignNameAccepted()
    ensures ValidateSkill("COO\U{212A}ING") == Ok("cooking")
  {
    var name := "COO\U{212A}ING";
    assert name[3] == KelvinSign;
    assert Lower(name) == "cooking" by {
      assert forall i :: 0 <= i < |name| ==> Lower(name)[i] == "cooking"[i];
    }
  }
}
