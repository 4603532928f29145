/** The API server as the operator's client sees it: every call may be refused with an error
    that changes nothing, and an accepted call acts on one object. */
module ApiServers {
  import opened Iteration
  import opened Objects

  /** `items` is a listing of the stored objects of one kind that carry the selector's labels. */
  ghost predicate IsListing(items: seq<(Key, Stored)>, store: Store, gvk: Gvk, selector: Labels) {
    && (forall i, j :: 0 <= i < j < |items| ==> items[i].0 != items[j].0)
    && (forall i :: 0 <= i < |items| ==> Listed(items[i].0, store, gvk, selector) && store[items[i].0] == items[i].1)
    && (forall k :: Listed(k, store, gvk, selector) ==> exists i :: 0 <= i < |items| && items[i].0 == k)
  }

  ghost predicate Listed(k: Key, store: Store, gvk: Gvk, selector: Labels) {
    k in store && k.gvk == gvk && Matches(store[k].obj.labels, selector)
  }

  /** `faults` counts the error replies, except that a read of an object that is not there and a
      listing of a kind that is not served are answers like any other. */
  class ApiServer {
    var objects: Store
    ghost var faults: nat
    const served: set<Gvk>

    constructor (served: set<Gvk>, objects: Store)
      ensures this.served == served && this.objects == objects && faults == 0
    {
      this.served := served;
      this.objects := objects;
      faults := 0;
    }

    method Get(k: Key) returns (r: Result<Stored>)
      modifies this`faults
      ensures r.Ok? ==> k in objects && r.value == objects[k]
      ensures r.Err? && r.error == NotFound ==> k !in objects
      ensures faults == old(faults) + if r.Err? && r.error != NotFound then 1 else 0
    {
      var refused: bool := *;
      if refused {
        faults := faults + 1;
        return Err(Unavailable);
      }
      r := if k in objects then Ok(objects[k]) else Err(NotFound);
    }

    method List(gvk: Gvk, selector: Labels) returns (r: Result<seq<(Key, Stored)>>)
      modifies this`faults
      ensures r.Ok? ==> gvk in served && IsListing(r.value, objects, gvk, selector)
      ensures r.Err? && r.error == NoMatch ==> gvk !in served
      ensures faults == old(faults) + if r.Err? && r.error != NoMatch then 1 else 0
    {
      var refused: bool := *;
      if refused {
        faults := faults + 1;
        return Err(Unavailable);
      }
      if gvk !in served {
        return Err(NoMatch);
      }
      var all := set k | k in objects && k.gvk == gvk && Matches(objects[k].obj.labels, selector);
      var keys := Enumerate(all);
      var store := objects;
      var items := seq(|keys|, i requires 0 <= i < |keys| =>
        assert keys[i] in keys && keys[i] in all; (keys[i], store[keys[i]]));
      forall i | 0 <= i < |items| ensures Listed(items[i].0, store, gvk, selector) && store[items[i].0] == items[i].1 {
        assert items[i].0 == keys[i] && keys[i] in keys;
      }
      forall k | Listed(k, store, gvk, selector) ensures exists i :: 0 <= i < |items| && items[i].0 == k {
        assert k in keys;
        var i :| 0 <= i < |keys| && keys[i] == k;
        assert items[i].0 == k;
      }
      r := Ok(items);
    }

    method Create(k: Key, o: Object) returns (r: Result<()>)
      modifies this`objects, this`faults
      ensures r.Ok? ==> k !in old(objects) && objects == old(objects)[k := Stored(o, 1, false, NO_STATUS)]
      ensures r.Err? ==> objects == old(objects)
      ensures faults == old(faults) + if r.Err? then 1 else 0
    {
      var refused: bool := *;
      if refused {
        faults := faults + 1;
        return Err(Unavailable);
      }
      if k in objects {
        faults := faults + 1;
        return Err(AlreadyExists);
      }
      objects := objects[k := Stored(o, 1, false, NO_STATUS)];
      r := Ok(());
    }

    /** A PUT that names the version it replaces. */
    method Update(k: Key, o: Object, version: nat) returns (r: Result<()>)
      modifies this`objects, this`faults
      ensures r.Ok? ==> k in old(objects) && old(objects)[k].version == version
      ensures r.Ok? ==> objects == old(objects)[k := Written(old(objects)[k], o)]
      ensures r.Err? ==> objects == old(objects)
      ensures faults == old(faults) + if r.Err? then 1 else 0
    {
      var refused: bool := *;
      if refused {
        faults := faults + 1;
        return Err(Unavailable);
      }
      if k !in objects {
        faults := faults + 1;
        return Err(NotFound);
      }
      if objects[k].version != version {
        faults := faults + 1;
        return Err(Conflict);
      }
      objects := objects[k := Written(objects[k], o)];
      r := Ok(());
    }

    /** A merge patch that sets or, with `None`, removes a single annotation. */
    method PatchAnnotation(k: Key, name: string, value: Option<Annotation>) returns (r: Result<()>)
      modifies this`objects, this`faults
      ensures r.Ok? ==> k in old(objects) && objects == old(objects)[k := Annotated(old(objects)[k], name, value)]
      ensures r.Err? ==> objects == old(objects)
      ensures faults == old(faults) + if r.Err? then 1 else 0
    {
      var refused: bool := *;
      if refused {
        faults := faults + 1;
        return Err(Unavailable);
      }
      if k !in objects {
        faults := faults + 1;
        return Err(NotFound);
      }
      objects := objects[k := Annotated(objects[k], name, value)];
      r := Ok(());
    }

    /** Starts a deletion; the object is removed later, by the garbage collector. */
    method Delete(k: Key) returns (r: Result<()>)
      modifies this`objects, this`faults
      ensures r.Ok? ==> k in old(objects) && objects == old(objects)[k := Terminated(old(objects)[k])]
      ensures r.Err? ==> objects == old(objects)
      ensures faults == old(faults) + if r.Err? then 1 else 0
    {
      var refused: bool := *;
      if refused {
        faults := faults + 1;
        return Err(Unavailable);
      }
      if k !in objects {
        faults := faults + 1;
        return Err(NotFound);
      }
      objects := objects[k := Terminated(objects[k])];
      r := Ok(());
    }
  }

  function Annotated(s: Stored, name: string, value: Option<Annotation>): Stored {
    var annotations := if value.Some? then s.obj.annotations[name := value.value] else s.obj.annotations - {name};
    Written(s, s.obj.(annotations := annotations))
  }

  function Terminated(s: Stored): Stored {
    s.(terminating := true, version := s.version + 1)
  }
}
