/** The `Search` component: the text typed so far, and the two buttons, which hand the
    trimmed query, or a reset request, to the callbacks the parent supplied. */
module Search {
  import opened JsString

  /** The component's only state, the `query` text. */
  datatype SearchState = SearchState(query: string)

  /** A call of one of the parent's callbacks, `onSearch(query)` or `onReset()`. */
  datatype Callback = OnSearch(query: string) | OnReset

  /** The component's next state and the callbacks it invoked, in order. */
  datatype Reaction = Reaction(state: SearchState, calls: seq<Callback>)

  /** The query starts empty. */
  const Initial: SearchState := SearchState("")

  /** The input's `onChange`: the query becomes the text in the box. */
  function OnChange(st: SearchState, text: string): (st': SearchState)
    ensures st'.query == text
  {
    st.(query := text)
  }

  /** The Search button: the query state is kept, and `onSearch` is called once with the
      query trimmed of whitespace at both ends. */
  function HandleSearch(st: SearchState): (r: Reaction)
    ensures r.state == st
    ensures |r.calls| == 1 && r.calls[0].OnSearch?
    ensures TrimmedFrom(r.calls[0].query, st.query) && NoEdgeWhitespace(r.calls[0].query)
  {
    Reaction(st, [OnSearch(Trim(st.query))])
  }

  /** The Reset button: the query is cleared and `onReset` is called exactly once. */
  function HandleReset(st: SearchState): (r: Reaction)
    ensures r.state.query == ""
    ensures r.calls == [OnReset]
  {
    Reaction(st.(query := ""), [OnReset])
  }

  /** A whitespace-only query is handed on as the empty string. */
  lemma WhitespaceQuerySearchesEmpty(st: SearchState)
    requires AllWhitespace(st.query)
    ensures HandleSearch(st).calls == [OnSearch("")]
  {
    TrimEmptyIffWhitespace(st.query);
  }
}
