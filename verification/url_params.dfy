/** The query parameters of the page URL that carry a view: `s` and `e` (the
    raw text of the start and end fields) and `p` (the encoded visible path).
    `url.searchParams` is abstracted as a map from name to value. */
module UrlParams {

  type Params = map<string, string>

  /** The parameters a view writes and `clear` removes. */
  const ViewKeys: set<string> := {"s", "e", "p"}

  /** The `clear` handler (src.js lines 151-155): `s`, `e` and `p` are deleted
      and every other parameter is kept with its value. */
  function Clear(params: Params): (r: Params)
    ensures "s" !in r && "e" !in r && "p" !in r
    ensures forall k :: k in params && k !in ViewKeys ==> k in r && r[k] == params[k]
    ensures forall k :: k in r ==> k in params
  {
    params - ViewKeys
  }

  /** Two parameter maps agree on every parameter outside `s`, `e` and `p`. */
  ghost predicate SameOutsideView(a: Params, b: Params)
  {
    forall k :: k !in ViewKeys ==> (k in a <==> k in b) && (k in a ==> a[k] == b[k])
  }

  /** Clearing twice is clearing once. */
  lemma ClearIdempotent(params: Params)
    ensures Clear(Clear(params)) == Clear(params)
  {
  }

  /** Clearing forgets exactly the view: two maps clear to the same map if and
      only if they agree outside `s`, `e` and `p`. */
  lemma ClearForgetsOnlyView(a: Params, b: Params)
    ensures Clear(a) == Clear(b) <==> SameOutsideView(a, b)
  {
    if SameOutsideView(a, b) {
      assert Clear(a).Keys == Clear(b).Keys;
    }
    if Clear(a) == Clear(b) {
      forall k | k !in ViewKeys
        ensures (k in a <==> k in b) && (k in a ==> a[k] == b[k])
      {
        assert k in a <==> k in Clear(a);
        assert k in b <==> k in Clear(b);
      }
    }
  }
}
