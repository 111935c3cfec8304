/** The Atlas as a pose graph: the solver's node and edge conventions against the Atlas's own. */
module SubmapGraph {
  import opened RigidMotion
  import opened CommitModel
  import opened LoopGraph
  import opened SubmapAtlas

  function Node(s: Submap): State {
    State(s.id, Inverse(s.T_ws))
  }

  function GraphEdge(c: Constraint): Edge {
    Edge(c.a, c.b, c.T_rel, c.weight, true)
  }

  method BuildSubmapGraph(atlas: Atlas) returns (nodes: seq<State>, fixed: seq<nat>, edges: seq<Edge>)
    ensures |nodes| == |atlas.submaps| && forall i :: 0 <= i < |nodes| ==> nodes[i] == Node(atlas.submaps[i])
    ensures |edges| == |atlas.constraints| && forall i :: 0 <= i < |edges| ==>
      edges[i] == GraphEdge(atlas.constraints[i])
    ensures fixed == if atlas.submaps == [] then [] else [atlas.submaps[0].id]
  {
    hide Inverse;
    nodes, edges := [], [];
    for i := 0 to |atlas.submaps|
      invariant |nodes| == i && forall j :: 0 <= j < i ==> nodes[j] == Node(atlas.submaps[j])
    {
      nodes := nodes + [State(atlas.submaps[i].id, Inverse(atlas.submaps[i].T_ws))];
    }
    fixed := if atlas.submaps == [] then [] else [atlas.submaps[0].id];
    for i := 0 to |atlas.constraints|
      invariant |edges| == i && forall j :: 0 <= j < i ==> edges[j] == GraphEdge(atlas.constraints[j])
    {
      var c := atlas.constraints[i];
      edges := edges + [Edge(c.a, c.b, c.T_rel, c.weight, true)];
    }
  }

  /** An edge holds between the nodes exactly when the constraint holds between the anchors. */
  lemma {:induction false} EdgeMeansConstraint(c: Constraint, a: Submap, b: Submap)
    ensures Compose(Node(a).pose, Inverse(Node(b).pose)) == GraphEdge(c).T_rel <==> b.T_ws == Compose(a.T_ws, c.T_rel)
  {
    hide Compose, Inverse;
    InverseInverse(b.T_ws);
    CancelLeft(a.T_ws, b.T_ws);
    CancelLeft(a.T_ws, c.T_rel);
  }

  ghost predicate Answers(submaps: seq<Submap>, answer: seq<PoseUpdate>) {
    |answer| <= |submaps| && forall i :: 0 <= i < |answer| ==> answer[i].id == submaps[i].id
  }

  /** A node-by-node answer gives every anchor the inverse of its own node; the others stay. */
  lemma {:induction false} AnswerIsWrittenBack(submaps: seq<Submap>, answer: seq<PoseUpdate>)
    requires IdsIncrease(submaps) && Answers(submaps, answer)
    ensures var after := Answered(submaps, answer);
            && SameButAnchors(submaps, after)
            && forall i :: 0 <= i < |submaps| ==>
                 after[i].T_ws == if i < |answer| then Inverse(answer[i].pose) else submaps[i].T_ws
    decreases |answer|
  {
    hide IdsIncrease, Inverse, SubmapAtlas.IndexOf;
    if answer != [] {
      var n := |answer| - 1;
      var before := Answered(submaps, answer[..n]);
      AnswerIsWrittenBack(submaps, answer[..n]);
      SameIndex(submaps, before, answer[n].id);
      OnlyIndex(submaps, n);
    }
  }

  /** Handing the graph's own nodes back as the answer leaves the Atlas as it was. */
  lemma {:induction false} UnsolvedGraphChangesNothing(submaps: seq<Submap>, answer: seq<PoseUpdate>)
    requires IdsIncrease(submaps) && |answer| == |submaps|
    requires forall i :: 0 <= i < |answer| ==> answer[i] == PoseUpdate(Node(submaps[i]).id, Node(submaps[i]).pose)
    ensures Answered(submaps, answer) == submaps
  {
    hide IdsIncrease, Inverse, Answered;
    AnswerIsWrittenBack(submaps, answer);
    forall i | 0 <= i < |submaps|
      ensures Answered(submaps, answer)[i] == submaps[i]
    {
      InverseInverse(submaps[i].T_ws);
    }
  }
}
