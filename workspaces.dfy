/**
 * The workspace collaborator, kept abstract. A layout function gives, for a
 * point, a workspace and the current membership, the windows whose
 * geometry holds the point, topmost first; the window under the pointer is
 * the first of them that belongs to that workspace. Moving a window only
 * reassigns its membership.
 */
module Workspaces {
  import opened Types

  type Membership = map<Window, WorkspaceId>
  type Layout = (Point, WorkspaceId, Membership) -> seq<Window>

  predicate OnWorkspace(m: Membership, w: Window, ws: WorkspaceId)
  {
    w in m && m[w] == ws
  }

  /** The first window of `candidates` that belongs to workspace `ws`. */
  function FirstOn(candidates: seq<Window>, m: Membership, ws: WorkspaceId): (r: Option<Window>)
    ensures r.Some? ==> r.value in candidates && OnWorkspace(m, r.value, ws)
    ensures r.Some? ==> exists i :: 0 <= i < |candidates| && candidates[i] == r.value
                          && forall j :: 0 <= j < i ==> !OnWorkspace(m, candidates[j], ws)
    ensures r.None? <==> forall w :: w in candidates ==> !OnWorkspace(m, w, ws)
    decreases |candidates|
  {
    if candidates == [] then None
    else if OnWorkspace(m, candidates[0], ws) then Some(candidates[0])
    else
      var r := FirstOn(candidates[1..], m, ws);
      assert forall w :: w in candidates ==> w == candidates[0] || w in candidates[1..];
      if r.Some? then
        var i :| 0 <= i < |candidates[1..]| && candidates[1..][i] == r.value
                 && forall j :: 0 <= j < i ==> !OnWorkspace(m, candidates[1..][j], ws);
        assert candidates[i + 1] == r.value;
        r
      else r
  }

  /** `window_under(point)` of workspace `ws`. */
  function WindowUnder(layout: Layout, m: Membership, ws: WorkspaceId, p: Point): (r: Option<Window>)
    ensures r.Some? ==> OnWorkspace(m, r.value, ws) && r.value in layout(p, ws, m)
  {
    FirstOn(layout(p, ws, m), m, ws)
  }

  /** `move_window_to_workspace`. */
  function MoveTo(m: Membership, w: Window, ws: WorkspaceId): (r: Membership)
    ensures OnWorkspace(r, w, ws)
    ensures forall v :: v != w ==> (v in r <==> v in m) && (v in m ==> r[v] == m[v])
  {
    m[w := ws]
  }

  /** A window moved to another workspace is no longer under the pointer on the workspace it left. */
  lemma MovedWindowLeaves(layout: Layout, m: Membership, ws: WorkspaceId, p: Point, id: WorkspaceId)
    requires WindowUnder(layout, m, ws, p).Some? && id != ws
    ensures var m' := MoveTo(m, WindowUnder(layout, m, ws, p).value, id);
            WindowUnder(layout, m', ws, p) != WindowUnder(layout, m, ws, p)
  {
  }
}
