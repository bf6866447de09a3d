/** Action objects as the evaluator holds them: dicts, updated in place, linked through `target`. */
module ActionObjects {
  import opened Options
  import opened Json
  import opened ActionHash

  function Stripped(f: Fields): Fields {
    map k | k in f && !IsInternal(k) :: f[k]
  }

  class ActionNode {
    var fields: Fields        // every entry but a nested action
    var target: ActionNode?   // the nested action under "target", if there is one
    ghost var Repr: set<ActionNode>

    ghost predicate Valid()
      reads this, Repr
      ensures Valid() ==> this in Repr
      decreases Repr, 0
    {
      && this in Repr
      && if target == null then !Nests(fields) else
           && target in Repr && target.Repr <= Repr && this !in target.Repr
           && target.Valid()
           && "target" !in fields
           && IsAction(target.Value())
    }

    function Value(): (j: Json)
      requires Valid()
      reads this, Repr
      ensures j.Obj?
      ensures Nests(j.fields) <==> target != null
      decreases Repr, 1
    {
      Obj(if target == null then fields else fields["target" := target.Value()])
    }

    /** Assigns one entry; the nested action is not reached this way. */
    method Set(key: string, value: Json)
      requires Valid() && key != "target" && key != "type"
      modifies this
      ensures Valid() && Repr == old(Repr) && target == old(target)
      ensures fields == old(fields)[key := value]
      ensures Value() == Obj(old(Value()).fields[key := value])
      ensures target != null ==> target.Value() == old(if target != null then target.Value() else Null)
    {
      var before := Value();
      fields := fields[key := value];
      assert target != null ==> fields["target" := target.Value()] == before.fields[key := value];
    }

    /** `del action_obj[key]` */
    method Remove(key: string)
      requires Valid() && key != "target" && key != "type"
      modifies this
      ensures Valid() && Repr == old(Repr) && target == old(target)
      ensures Value() == Obj(old(Value()).fields - {key})
    {
      ghost var before := Value();
      fields := fields - {key};
      assert target != null ==> fields["target" := target.Value()] == before.fields - {key};
    }

    /** Drops the keys that start with an underscore. */
    method StripInternal()
      requires Valid()
      modifies this
      ensures Valid() && Repr == old(Repr) && target == old(target)
      ensures Value() == Obj(Stripped(old(Value()).fields))
    {
      ghost var before := Value();
      fields := Stripped(fields);
      assert target != null ==> fields["target" := target.Value()] == Stripped(before.fields);
    }

    /** `compute_action_hash`; None stands for the error raised on floats. */
    method ComputeActionHash(digest: Digest) returns (hash: Option<string>)
      requires Valid()
      modifies Repr
      ensures Valid() && Repr == old(Repr) && target == old(target)
      ensures IsAction(Value()) == old(IsAction(Value()))
      ensures hash.None? <==> Compute(digest, old(Value())).FloatError?
      ensures hash.Some? ==> Compute(digest, old(Value())) == Hashed(hash.value, Value())
      decreases Repr, 1
    {
      ghost var before := Value();
      if target != null {
        if "action_hash" !in target.fields {
          MissingHash(digest, before);
          var ok := HashTarget(digest);
          if !ok { return None; }
        } else {
          PresentHash(digest, before);
        }
        hide Compute;
        Set("child_action_hash", target.fields["action_hash"]);
      } else {
        NothingNested(digest, before);
      }
      hide Compute, Normalize, HasFloat;
      assert Compute(digest, before) == Finished(digest, Value());
      hide Nests, IsAction;
      var normalized := Normalize(Value());
      if HasFloat(normalized) { return None; }
      return Some(digest(normalized));
    }

    /** Computes the missing hash of the nested action and writes it there. */
    method HashTarget(digest: Digest) returns (ok: bool)
      requires Valid() && target != null
      modifies target.Repr
      ensures Valid() && Repr == old(Repr) && target == old(target)
      ensures IsAction(Value()) == old(IsAction(Value()))
      ensures ok <==> Compute(digest, old(target.Value())).Hashed?
      ensures ok ==> (var r := Compute(digest, old(target.Value()));
        && "action_hash" in target.fields && target.fields["action_hash"] == Str(r.hash)
        && Value() == Obj(old(Value()).fields["target" := Obj(r.action.fields["action_hash" := Str(r.hash)])]))
      decreases Repr, 0
    {
      hide Compute;
      var childHash := target.ComputeActionHash(digest);
      assert Valid();
      if childHash.None? { return false; }
      target.Set("action_hash", Str(childHash.value));
      assert Valid();
      ghost var v := target.Value();
      assert fields["target" := v] == old(Value()).fields["target" := v];
      return true;
    }
  }

  // ----- The three ways a hash is computed -----

  /** Hashing once the hash of the nested action is in place. */
  function Finished(digest: Digest, j: Json): HashResult {
    if HasFloat(Normalize(j)) then FloatError else Hashed(digest(Normalize(j)), j)
  }

  lemma NothingNested(digest: Digest, j: Json)
    requires j.Obj? && !Nests(j.fields)
    ensures Compute(digest, j) == Finished(digest, j)
  {
    hide Normalize, HasFloat;
  }

  lemma PresentHash(digest: Digest, j: Json)
    requires j.Obj? && Nests(j.fields) && "action_hash" in j.fields["target"].fields
    ensures Compute(digest, j) ==
      Finished(digest, Obj(j.fields["child_action_hash" := j.fields["target"].fields["action_hash"]]))
  {
    hide Normalize, HasFloat;
  }

  lemma MissingHash(digest: Digest, j: Json)
    requires j.Obj? && Nests(j.fields) && "action_hash" !in j.fields["target"].fields
    ensures
      var r := Compute(digest, j.fields["target"]);
      Compute(digest, j) ==
        if r.FloatError? then FloatError
        else Finished(digest, Obj(
          j.fields["target" := Obj(r.action.fields["action_hash" := Str(r.hash)])]["child_action_hash" := Str(r.hash)]))
  {
    hide Normalize, HasFloat;
  }
}
