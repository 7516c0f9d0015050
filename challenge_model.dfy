/**
 * The `challenges` and `challenge_categories` rows and their dict views.
 * Columns an administrator may set from a request body hold the decoded
 * JSON value they were given; counters, ids and timestamps are integers.
 */
module ChallengeModel {
  import opened Wrappers
  import opened Json

  /** A category with the number of its published challenges, which `to_dict` reports. */
  datatype Category = Category(id: int, name: Value, description: Value, icon: Value, color: Value, publishedCount: nat)

  function CategoryDict(c: Category): (d: seq<(string, Value)>)
    ensures Keys(d) == ["id", "name", "description", "icon", "color", "challenge_count"]
    ensures Get(d, "challenge_count") == Some(JNum(c.publishedCount))
  {
    var d := [("id", JNum(c.id)), ("name", c.name), ("description", c.description), ("icon", c.icon),
              ("color", c.color), ("challenge_count", JNum(c.publishedCount))];
    GetAt(d, 5);
    d
  }

  /** `x or []` for a JSON list column. */
  function OrEmptyList(v: Value): (r: Value)
    ensures Truthy(v) ==> r == v
    ensures !Truthy(v) ==> r == JArray([])
  {
    if Truthy(v) then v else JArray([])
  }

  /** The keys every `to_dict` carries (`success_rate` is reported by `SuccessRateShown` instead). */
  const PublicKeys: seq<string> := ["id", "title", "description", "scenario", "instructions", "questions",
                                   "challenge_type", "difficulty", "author", "series", "points", "time_limit",
                                   "operating_system", "file_attachments", "suggested_tools", "environment_url",
                                   "answer_type", "answer_format", "is_featured", "publish_date", "created_at",
                                   "total_attempts", "successful_attempts", "solves", "category"]

  /** The keys `to_dict(include_sensitive=True)` adds. */
  const SensitiveKeys: seq<string> := ["hints", "correct_answer", "validation_regex", "docker_image",
                                      "is_published", "created_by", "updated_at"]

  /** The columns `update_challenge` may overwrite. */
  const UpdatableFields: seq<string> := ["title", "description", "scenario", "instructions", "hints",
                                        "challenge_type", "difficulty", "points", "time_limit",
                                        "file_attachments", "docker_image", "environment_url",
                                        "answer_type", "correct_answer", "answer_format", "validation_regex",
                                        "is_published", "is_featured", "category_id"]

  /**
   * The `success_rate` of `to_dict`, in percent before rounding: the
   * denominator is `max(total_attempts, 1)`, so no attempts give
   * `successful_attempts * 100`.
   */
  function SuccessRateShown(successful: int, total: int): real
  {
    (successful * 100) as real / (if total > 1 then total else 1) as real
  }

  /** `calculate_success_rate`, before rounding: 0 when there are no attempts. */
  function CalculateSuccessRate(successful: int, total: int): (r: real)
    ensures total == 0 ==> r == 0.0
    ensures total != 0 ==> r * total as real == (successful * 100) as real
  {
    if total == 0 then 0.0 else (successful * 100) as real / total as real
  }

  /**
   * The two rates agree whenever there has been an attempt, and also with no
   * attempts as long as the success counter is 0 too.
   */
  lemma SuccessRatesAgree(successful: int, total: int)
    requires total >= 1 || (total == 0 && successful == 0)
    ensures SuccessRateShown(successful, total) == CalculateSuccessRate(successful, total)
  {
  }

  /** With no attempts but a non-zero success counter the shown rate is not 0: the two rules differ. */
  lemma SuccessRatesDiffer(successful: int)
    requires successful != 0
    ensures SuccessRateShown(successful, 0) == (successful * 100) as real
    ensures CalculateSuccessRate(successful, 0) == 0.0
  {
  }

  /** Between 0 and 100 percent whenever the counters are consistent. */
  lemma SuccessRateBounds(successful: int, total: int)
    requires 0 <= successful <= total
    ensures 0.0 <= CalculateSuccessRate(successful, total) <= 100.0
    ensures 0.0 <= SuccessRateShown(successful, total) <= 100.0
  {
    if total > 0 {
      assert (successful * 100) as real <= (total * 100) as real;
    }
  }

  /**
   * A challenge row. The columns an administrator sets from a request body
   * are kept by name, as `setattr` addresses them; a column never set reads
   * as `NULL`.
   */
  class Challenge {
    const id: int
    var columns: map<string, Value>
    var publishDate: Option<int>
    var createdAt: int
    var updatedAt: int
    var createdBy: int
    var totalAttempts: int
    var successfulAttempts: int

    /**
     * A row with only the given value columns set and the column defaults:
     * 100 points, unpublished, not featured, no attempts.
     */
    constructor (id: int, given: map<string, Value>, createdBy: int, now: int)
      ensures this.id == id && this.createdBy == createdBy
      ensures forall n :: n in given ==> Column(n) == given[n]
      ensures "points" !in given ==> Column("points") == JNum(100)
      ensures "is_published" !in given ==> Column("is_published") == JBool(false)
      ensures "is_featured" !in given ==> Column("is_featured") == JBool(false)
      ensures totalAttempts == 0 && successfulAttempts == 0
      ensures publishDate.None? && createdAt == now && updatedAt == now
    {
      this.id, this.createdBy := id, createdBy;
      columns := map["points" := JNum(100), "is_published" := JBool(false), "is_featured" := JBool(false)] + given;
      publishDate, createdAt, updatedAt := None, now, now;
      totalAttempts, successfulAttempts := 0, 0;
    }

    /** The value column of the given name, as `getattr` would read it. */
    function Column(name: string): Value
      reads this
    {
      if name in columns then columns[name] else JNull
    }

    /** `setattr(challenge, name, v)`. */
    method SetColumn(name: string, v: Value)
      modifies this`columns
      ensures Column(name) == v
      ensures forall n :: n != name ==> Column(n) == old(Column(n))
    {
      columns := columns[name := v];
    }

    /**
     * The value `to_dict` stores under a key: the column itself, `[]` for an
     * unset or empty list column, the counters and timestamps as numbers,
     * and the category's own dict or `None`.
     */
    function Entry(key: string, solves: nat, category: Option<Category>): Value
      reads this
    {
      if key == "id" then JNum(id)
      else if key == "questions" || key == "file_attachments" || key == "suggested_tools" || key == "hints" then
        OrEmptyList(Column(key))
      else if key == "publish_date" then (if publishDate.Some? then JNum(publishDate.value) else JNull)
      else if key == "created_at" then JNum(createdAt)
      else if key == "total_attempts" then JNum(totalAttempts)
      else if key == "successful_attempts" then JNum(successfulAttempts)
      else if key == "solves" then JNum(solves)
      else if key == "category" then (if category.Some? then JObject(CategoryDict(category.value)) else JNull)
      else if key == "created_by" then JNum(createdBy)
      else if key == "updated_at" then JNum(updatedAt)
      else Column(key)
    }

    /**
     * `to_dict(include_sensitive)`: the public keys in their order, then the
     * sensitive ones when asked for, each with its `Entry`. `solves` is the
     * number of correct submissions and `category` the row's category, both
     * read from other tables. Timestamps are given as numbers.
     */
    function ToDict(includeSensitive: bool, solves: nat, category: Option<Category>): (d: seq<(string, Value)>)
      reads this
      ensures Keys(d) == DictKeys(includeSensitive)
      ensures forall i :: 0 <= i < |d| ==> d[i].1 == Entry(d[i].0, solves, category)
    {
      var keys := DictKeys(includeSensitive);
      seq(|keys|, i requires 0 <= i < |keys| reads this => (keys[i], Entry(keys[i], solves, category)))
    }
  }

  /** The keys of `to_dict(include_sensitive)`, in order. */
  function DictKeys(includeSensitive: bool): seq<string>
  {
    PublicKeys + (if includeSensitive then SensitiveKeys else [])
  }

  /** No public key is a sensitive one (small lemmas keep each literal comparison cheap). */
  lemma HintsAnswerNotPublic()
    ensures "hints" !in PublicKeys && "correct_answer" !in PublicKeys
  {
  }

  lemma RegexImageNotPublic()
    ensures "validation_regex" !in PublicKeys && "docker_image" !in PublicKeys
  {
  }

  lemma PublishedNotPublic()
    ensures "is_published" !in PublicKeys
  {
  }

  lemma AuthorUpdateNotPublic()
    ensures "created_by" !in PublicKeys && "updated_at" !in PublicKeys
  {
  }

  lemma KeySetsDisjoint(k: string)
    requires k in SensitiveKeys
    ensures k !in PublicKeys
  {
    HintsAnswerNotPublic();
    RegexImageNotPublic();
    PublishedNotPublic();
    AuthorUpdateNotPublic();
  }

  /** The answer key, hints, image, publication flag, author id and update time are shown only when asked for. */
  lemma ToDictHidesSensitive(c: Challenge, includeSensitive: bool, solves: nat, category: Option<Category>, k: string)
    requires k in SensitiveKeys
    ensures HasKey(c.ToDict(includeSensitive, solves, category), k) <==> includeSensitive
  {
    KeysHasKey(c.ToDict(includeSensitive, solves, category), k);
    KeySetsDisjoint(k);
  }

  /** Looking a key of the dict up gives its `Entry`. */
  lemma ToDictGet(c: Challenge, includeSensitive: bool, solves: nat, category: Option<Category>, key: string)
    requires key in DictKeys(includeSensitive)
    ensures Get(c.ToDict(includeSensitive, solves, category), key) == Some(c.Entry(key, solves, category))
  {
    KeysHasKey(c.ToDict(includeSensitive, solves, category), key);
    GetUniform(c.ToDict(includeSensitive, solves, category), key, c.Entry(key, solves, category));
  }

  /** The list columns are always present and read as `[]` when unset or empty. */
  lemma ToDictListDefaults(c: Challenge, includeSensitive: bool, solves: nat, category: Option<Category>)
    ensures Get(c.ToDict(includeSensitive, solves, category), "questions") == Some(OrEmptyList(c.Column("questions")))
    ensures Get(c.ToDict(includeSensitive, solves, category), "file_attachments") == Some(OrEmptyList(c.Column("file_attachments")))
    ensures Get(c.ToDict(includeSensitive, solves, category), "suggested_tools") == Some(OrEmptyList(c.Column("suggested_tools")))
  {
    var keys := DictKeys(includeSensitive);
    assert keys[5] == "questions" && keys[13] == "file_attachments" && keys[14] == "suggested_tools";
    ToDictGet(c, includeSensitive, solves, category, "questions");
    ToDictGet(c, includeSensitive, solves, category, "file_attachments");
    ToDictGet(c, includeSensitive, solves, category, "suggested_tools");
  }

  /** With sensitive fields, the hints list reads as `[]` when unset and the answer is the stored one. */
  lemma ToDictSensitiveValues(c: Challenge, solves: nat, category: Option<Category>)
    ensures Get(c.ToDict(true, solves, category), "hints") == Some(OrEmptyList(c.Column("hints")))
    ensures Get(c.ToDict(true, solves, category), "correct_answer") == Some(c.Column("correct_answer"))
  {
    var keys := DictKeys(true);
    assert keys[25] == "hints" && keys[26] == "correct_answer";
    ToDictGet(c, true, solves, category, "hints");
    ToDictGet(c, true, solves, category, "correct_answer");
  }
}
