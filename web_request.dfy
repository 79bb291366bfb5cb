/** The query-parameter map of a servlet request, in its iteration order. */
module WebRequest {
  import opened Wrappers

  /** `getParameterMap()`: each name with all of its values, in iteration order. */
  type ParamMap = seq<(string, seq<string>)>

  /** `getParameter(name)`: the first value of the named parameter, or `null`. */
  function GetParameter(params: ParamMap, name: string): (r: Option<string>)
    ensures r.Some? ==> exists k :: 0 <= k < |params| && params[k].0 == name && |params[k].1| > 0 && params[k].1[0] == r.value
    ensures (forall k :: 0 <= k < |params| ==> params[k].0 != name) ==> r.None?
    ensures forall k :: 0 <= k < |params| && params[k].0 == name && (forall j :: 0 <= j < k ==> params[j].0 != name) ==>
      r == (if |params[k].1| > 0 then Some(params[k].1[0]) else None)
  {
    if params == [] then None
    else if params[0].0 == name then (if |params[0].1| > 0 then Some(params[0].1[0]) else None)
    else
      var r := GetParameter(params[1..], name);
      assert r.Some? ==> exists k :: 0 <= k < |params| && params[k].0 == name && |params[k].1| > 0 && params[k].1[0] == r.value by {
        if r.Some? {
          var k :| 0 <= k < |params[1..]| && params[1..][k].0 == name && |params[1..][k].1| > 0 && params[1..][k].1[0] == r.value;
          assert params[k + 1] == params[1..][k];
        }
      }
      r
  }
}
