/**
 * `parse_preferences`: the known-tag list offered to the language model,
 * and the post-processing of its reply.
 */
module PreferenceParser {
  import opened Wrappers
  import opened Text
  import opened Lex
  import opened Catalog
  import opened TagVocabulary
  import Config

  /**
   * The `semantic_moods` field of a decoded reply: a list of strings, or a
   * single string (which `" ".join` then splits into its characters). A
   * missing or null field is the empty list.
   */
  datatype MoodsField = MoodList(items: seq<string>) | MoodText(text: string)

  /** Python truthiness of the field: a non-empty list or a non-empty string. */
  predicate MoodsTruthy(m: MoodsField) {
    match m
    case MoodList(items) => items != []
    case MoodText(text) => text != ""
  }

  /** The strings `" ".join` iterates over: the list's items, or the string's characters. */
  function MoodWords(m: MoodsField): (r: seq<string>)
    ensures m.MoodList? ==> r == m.items
    ensures m.MoodText? ==> |r| == |m.text| && forall i :: 0 <= i < |r| ==> r[i] == [m.text[i]]
  {
    match m
    case MoodList(items) => items
    case MoodText(text) => seq(|text|, i requires 0 <= i < |text| => [text[i]])
  }

  /**
   * The fields of a decoded reply the backend reads. A missing or null
   * title list is the empty list; a title entry that is not a string is
   * `None`. `mappedTags` is `None` when the field is present but null or
   * not a list (adding it to the moods then raises); a missing field is
   * the empty list.
   */
  datatype Preferences = Preferences(
    likedTitles: seq<Option<string>>,
    dislikedTitles: seq<Option<string>>,
    mappedTags: Option<seq<string>>,
    semanticMoods: MoodsField)

  /**
   * The model's reply: the call raised, the content does not decode as JSON,
   * it decodes to something other than an object (so `parsed.get` raises),
   * or it decodes to an object.
   */
  datatype LlmReply = CallFailed | Undecodable | NotAnObject | Decoded(parsed: Preferences)

  /** `load_known_tags`: the vocabulary of the catalog's tags. */
  method LoadKnownTags(data: seq<Anime>, nsfwOk: bool) returns (knownTags: seq<string>)
    ensures knownTags == Config.ConfigOf(data, nsfwOk).tags
  {
    knownTags := BuildVocabulary(TagLists(data), nsfwOk);
  }

  /** The known tags are in strictly increasing lowercase order and omit the NSFW tags unless allowed. */
  lemma KnownTagsSpec(data: seq<Anime>, nsfwOk: bool)
    ensures StrictlySorted(LowerAll(Config.ConfigOf(data, nsfwOk).tags))
    ensures !nsfwOk ==> forall e :: e in Config.ConfigOf(data, nsfwOk).tags ==> Lower(e) !in NsfwTags
  {
    Config.ConfigTags(data, nsfwOk);
  }

  /**
   * What `parse_preferences` returns for a reply, or `None` when it raises:
   * a failed call and a non-object reply raise (only the JSON decode error
   * is caught); on a decode failure, three empty lists and the query itself
   * as the only mood; otherwise the decoded object, with the query as the
   * only mood when its moods are falsy.
   */
  function Postprocess(userQuery: string, reply: LlmReply): (r: Option<Preferences>)
    ensures r.None? <==> reply.CallFailed? || reply.NotAnObject?
    ensures r.Some? ==> MoodsTruthy(r.value.semanticMoods)
    ensures reply.Undecodable? ==> r == Some(Preferences([], [], Some([]), MoodList([userQuery])))
    ensures reply.Decoded? && MoodsTruthy(reply.parsed.semanticMoods) ==> r == Some(reply.parsed)
    ensures reply.Decoded? ==>
              r.Some? &&
              r.value.likedTitles == reply.parsed.likedTitles &&
              r.value.dislikedTitles == reply.parsed.dislikedTitles &&
              r.value.mappedTags == reply.parsed.mappedTags
    ensures reply.Decoded? && !MoodsTruthy(reply.parsed.semanticMoods) ==>
              r.value.semanticMoods == MoodList([userQuery])
  {
    match reply
    case CallFailed => None
    case NotAnObject => None
    case Undecodable =>
      Some(Preferences([], [], Some([]), MoodList([userQuery])))
    case Decoded(parsed) =>
      if !MoodsTruthy(parsed.semanticMoods) then Some(parsed.(semanticMoods := MoodList([userQuery])))
      else Some(parsed)
  }

  /**
   * `parse_preferences`: the model is asked with the known tags and the
   * query, and its reply is post-processed; `None` is an exception
   * escaping the function.
   */
  method ParsePreferences(data: seq<Anime>, userQuery: string, nsfwOk: bool,
                          llm: (seq<string>, string) -> LlmReply)
    returns (p: Option<Preferences>)
    ensures p == Postprocess(userQuery, llm(Config.ConfigOf(data, nsfwOk).tags, userQuery))
    ensures p.Some? ==> MoodsTruthy(p.value.semanticMoods)
  {
    var knownTags := LoadKnownTags(data, nsfwOk);
    var reply := llm(knownTags, userQuery);
    match reply {
      case CallFailed =>
        p := None;
      case NotAnObject =>
        p := None;
      case Undecodable =>
        p := Some(Preferences([], [], Some([]), MoodList([userQuery])));
      case Decoded(parsed) =>
        var moods := parsed.semanticMoods;
        if !MoodsTruthy(moods) {
          moods := MoodList([userQuery]);
        }
        p := Some(parsed.(semanticMoods := moods));
    }
  }
}
