/**
 The file tree as a map from places to contents. Every operation may fail; `history` holds every state the tree has been
 in, so what is proved of it holds at every point where the process may stop.
 */
module Disk {

  type Content = string

  predicate SameAt<P>(a: map<P, Content>, b: map<P, Content>, p: P) {
    (p in a <==> p in b) && (p in a ==> a[p] == b[p])
  }

  /** A step outside the tree that was tried: a database, a service, a check; and the files at that moment. */
  datatype Step<P> = Step(name: string, ok: bool, files: map<P, Content>)

  /** These steps, all of them successful and no others, were taken from step number `from` on. */
  predicate Took<P>(steps: seq<Step<P>>, from: nat, names: seq<string>) {
    |steps| == from + |names| && forall i :: from <= i < |steps| ==> steps[i].ok && steps[i].name == names[i - from]
  }

  lemma TookOneMore<P>(steps: seq<Step<P>>, from: nat, names: seq<string>, step: Step<P>)
    requires Took(steps, from, names) && step.ok
    ensures Took(steps + [step], from, names + [step.name])
  {
  }

  lemma TookBoth<P>(steps: seq<Step<P>>, from: nat, names: seq<string>, more: seq<Step<P>>, others: seq<string>)
    requires Took(steps, from, names) && steps <= more && Took(more, |steps|, others)
    ensures Took(more, from, names + others)
  {
    forall i | from <= i < |more|
      ensures more[i].ok && more[i].name == (names + others)[i - from]
    {
      assert i < |steps| ==> more[i] == steps[i];
      assert i >= |steps| ==> more[i].name == others[i - |steps|];
    }
  }

  /** From step number `from` on, this one has succeeded. */
  predicate Did<P>(steps: seq<Step<P>>, from: nat, name: string) {
    exists i :: from <= i < |steps| && steps[i].ok && steps[i].name == name
  }

  lemma DidLast<P>(steps: seq<Step<P>>, step: Step<P>)
    ensures Did(steps + [step], |steps|, step.name) <==> step.ok
  {
    assert (steps + [step])[|steps|] == step;
  }

  lemma NothingDone<P>(steps: seq<Step<P>>, name: string)
    ensures !Did(steps, |steps|, name)
  {
  }

  lemma DidLater<P>(earlier: seq<Step<P>>, steps: seq<Step<P>>, from: nat, name: string)
    requires from <= |earlier| && earlier <= steps
    ensures Did(steps, from, name) <==> Did(earlier, from, name) || Did(steps, |earlier|, name)
  {
    if Did(earlier, from, name) {
      var i :| from <= i < |earlier| && earlier[i].ok && earlier[i].name == name;
      assert steps[i] == earlier[i];
    }
    if Did(steps, from, name) {
      var i :| from <= i < |steps| && steps[i].ok && steps[i].name == name;
      assert i < |earlier| ==> steps[i] == earlier[i];
    }
  }

  class FileTree<P(==)> {
    var files: map<P, Content>
    ghost var history: seq<map<P, Content>>
    /** How many operations have failed so far, here or elsewhere in the environment. */
    ghost var faults: nat
    ghost var steps: seq<Step<P>>

    ghost predicate Valid()
      reads this
    {
      history != [] && history[|history| - 1] == files
    }

    constructor (initial: map<P, Content>)
      ensures Valid() && files == initial && history == [initial]
    {
      files, history, faults, steps := initial, [initial], 0, [];
    }

    /** os.Stat; it reports existence truthfully. */
    method Exists(p: P) returns (found: bool)
      ensures found == (p in files)
    {
      found := p in files;
    }

    /** Something outside the tree that may fail. */
    method Attempt(name: string) returns (ok: bool)
      modifies this`faults, this`steps
      ensures faults == old(faults) + if ok then 0 else 1
      ensures steps == old(steps) + [Step(name, ok, files)]
    {
      ok := Succeeds();
      steps := steps + [Step(name, ok, files)];
    }

    method Succeeds() returns (ok: bool)
      modifies this`faults
      ensures faults == old(faults) + if ok then 0 else 1
    {
      ok := *;
      faults := faults + if ok then 0 else 1;
    }

    /** os.Rename: all or nothing. It fails on a missing source, and may fail at any time. */
    method Rename(src: P, dst: P) returns (ok: bool)
      requires Valid() && src != dst
      modifies this
      ensures Valid()
      ensures ok ==> src in old(files) && files == (old(files) - {src})[dst := old(files)[src]] && history == old(history) + [files]
      ensures !ok ==> files == old(files) && history == old(history)
      ensures faults >= old(faults) && (!ok && src in old(files) ==> faults > old(faults)) && (ok ==> faults == old(faults))
      ensures steps == old(steps)
    {
      ok := Succeeds();
      if !ok || src !in files {
        return false;
      }
      files := (files - {src})[dst := files[src]];
      history := history + [files];
      ok := true;
    }

    /** os.RemoveAll: nothing to remove is success; a failure may leave a damaged remainder. */
    method RemoveAll(p: P) returns (ok: bool)
      requires Valid()
      modifies this
      ensures Valid() && history == old(history) + [files]
      ensures forall q :: q != p ==> SameAt(old(files), files, q)
      ensures p in files ==> p in old(files)
      ensures ok <==> p !in files
      ensures faults == old(faults) + if ok then 0 else 1
      ensures steps == old(steps)
    {
      ok := p !in files;
      if !ok {
        ok := Succeeds();
      }
      if !ok {
        var remainder: Content := *;
        files := files[p := remainder];
      } else {
        files := files - {p};
      }
      history := history + [files];
    }

    /** os.Remove of one file, a missing one being fine: all or nothing. */
    method Remove(p: P) returns (ok: bool)
      requires Valid()
      modifies this
      ensures Valid() && history == old(history) + [files]
      ensures files == if ok then old(files) - {p} else old(files)
      ensures faults == old(faults) + if ok then 0 else 1
      ensures steps == old(steps)
    {
      ok := p !in files;
      if !ok {
        ok := Succeeds();
      }
      if ok {
        files := files - {p};
      }
      history := history + [files];
    }

    /** A program that is not under our control removes its own file. */
    method Discard(p: P)
      requires Valid()
      modifies this`files, this`history
      ensures Valid() && history == old(history) + [files] && files == old(files) - {p}
    {
      files := files - {p};
      history := history + [files];
    }

    /** It may create a file of its own, and never overwrites one. */
    method MayAppear(p: P, content: Content)
      requires Valid()
      modifies this`files, this`history
      ensures Valid() && history == old(history) + [files]
      ensures files == old(files) || (p !in old(files) && files == old(files)[p := content])
    {
      var appears: bool := *;
      if appears && p !in files {
        files := files[p := content];
      }
      history := history + [files];
    }

    /** A file or directory is created, with all its content or not at all. */
    method Create(p: P, content: Content) returns (ok: bool)
      requires Valid()
      modifies this
      ensures Valid() && history == old(history) + [files]
      ensures files == if ok then old(files)[p := content] else old(files)
      ensures faults == old(faults) + if ok then 0 else 1
      ensures steps == old(steps)
    {
      ok := Succeeds();
      if ok {
        files := files[p := content];
      }
      history := history + [files];
    }
  }
}
