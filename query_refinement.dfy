/** The query-refinement agent and the MCP server's `refine_query_tool`:
    the model rewrites the user's query, and the rewrite is used only when
    it is at most three times as long as the original. The model's reply
    is a parameter: its text, or the failure message of the call. */
module QueryRefinement {
  import opened Wrappers
  import opened Text

  /** A rewrite longer than this many times the original is rejected. */
  const GrowthLimit: nat := 3

  /** `generate_refined_query`: the stripped reply, unless it is longer than
      three times the original; the original on any failure. */
  function RefineQuery(original: string, reply: Outcome<string>): (r: string)
    ensures r == original || (reply.Ok? && r == Strip(reply.value))
    ensures |r| <= GrowthLimit * |original|
    ensures reply.Fail? ==> r == original
    ensures reply.Ok? && |Strip(reply.value)| <= GrowthLimit * |original| ==> r == Strip(reply.value)
    ensures reply.Ok? && |Strip(reply.value)| > GrowthLimit * |original| ==> r == original
  {
    match reply
    case Fail(_) => original
    case Ok(text) =>
      var refined := Strip(text);
      if |refined| > |original| * GrowthLimit then original else refined
  }

  /** Refining twice with the same stripped reply changes nothing more: the
      second guard compares with the accepted rewrite, never shorter than a
      third of it. */
  lemma RefineIdempotent(original: string, text: string)
    ensures RefineQuery(RefineQuery(original, Ok(text)), Ok(text)) == RefineQuery(original, Ok(text))
  {
    var once := RefineQuery(original, Ok(text));
    if once != original {
      assert once == Strip(text);
    }
  }

  /** What the MCP tool hands back on a failure: the JSON object
      `{"error": message}` as text. */
  function ErrorJson(message: string): (r: string)
    ensures |r| == |message| + 13
    ensures r[..11] == "{\"error\": \"" && r[|r| - 2..] == "\"}"
  {
    "{\"error\": \"" + message + "\"}"
  }

  /** `refine_query_tool`: the agent's guard on success, the JSON error text
      (not the original query) on failure. */
  function RefineQueryTool(original: string, reply: Outcome<string>): (r: string)
    ensures reply.Ok? ==> r == RefineQuery(original, reply)
    ensures reply.Fail? ==> r == ErrorJson(reply.message)
  {
    match reply
    case Fail(message) => ErrorJson(message)
    case Ok(_) => RefineQuery(original, reply)
  }
}
