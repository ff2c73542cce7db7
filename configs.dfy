/**
 * What the four configuration files share: the `ValidationError` they report,
 * the guard chains their `validate` bodies are made of (`if cond { return
 * Err(..) }` in source order, then `Ok(())`), and the `a.validate()?;
 * b.validate()?; Ok(())` sequencing of nested sections.
 */
module Configs {
  import opened Wrappers

  datatype ConfigError = ValidationError(message: string)

  /** Rust's `Result<(), ConfigError>`. */
  type Verdict = Outcome<ConfigError>

  /** One early return of a `validate` body: its condition and its message. */
  datatype Guard = Guard(fires: bool, message: string)

  /**
   * A guard chain runs its guards in order and stops at the first one that
   * fires: the verdict is Pass iff none fires, and otherwise carries the
   * message of the first that does.
   */
  function FirstFiring(guards: seq<Guard>): (r: Verdict)
    ensures r.Pass? <==> forall g :: g in guards ==> !g.fires
    ensures r.Fail? ==> (exists i :: 0 <= i < |guards| && guards[i].fires
                           && (forall j :: 0 <= j < i ==> !guards[j].fires)
                           && r.error == ValidationError(guards[i].message))
  {
    if guards == [] then Pass
    else if guards[0].fires then Fail(ValidationError(guards[0].message))
    else
      var r := FirstFiring(guards[1..]);
      assert r.Fail? ==> (exists i :: 1 <= i < |guards| && guards[i].fires
                            && (forall j :: 0 <= j < i ==> !guards[j].fires)
                            && r.error == ValidationError(guards[i].message)) by {
        if r.Fail? {
          var k :| 0 <= k < |guards[1..]| && guards[1..][k].fires
            && (forall j :: 0 <= j < k ==> !guards[1..][j].fires)
            && r.error == ValidationError(guards[1..][k].message);
          assert forall j :: 0 <= j < k + 1 ==> !guards[j].fires by {
            forall j | 0 <= j < k + 1 ensures !guards[j].fires {
              if j > 0 { assert guards[j] == guards[1..][j - 1]; }
            }
          }
        }
      }
      r
  }

  /**
   * `a?; b?; ...; Ok(())`: the first failing step's error is returned
   * unchanged and the later steps do not matter; Pass iff every step passes.
   */
  function Chain(steps: seq<Verdict>): (r: Verdict)
    ensures r.Pass? <==> forall v :: v in steps ==> v.Pass?
    ensures r.Fail? ==> (exists i :: 0 <= i < |steps| && r == steps[i]
                           && forall j :: 0 <= j < i ==> steps[j].Pass?)
  {
    if steps == [] then Pass
    else if steps[0].Fail? then steps[0]
    else
      var r := Chain(steps[1..]);
      assert r.Fail? ==> (exists i :: 1 <= i < |steps| && r == steps[i]
                            && forall j :: 0 <= j < i ==> steps[j].Pass?) by {
        if r.Fail? {
          var k :| 0 <= k < |steps[1..]| && r == steps[1..][k]
            && forall j :: 0 <= j < k ==> steps[1..][j].Pass?;
          assert forall j :: 0 <= j < k + 1 ==> steps[j].Pass? by {
            forall j | 0 <= j < k + 1 ensures steps[j].Pass? {
              if j > 0 { assert steps[j] == steps[1..][j - 1]; }
            }
          }
        }
      }
      r
  }

  /** Conversely, a guard that fires after only quiet ones decides the verdict. */
  lemma {:induction false} FirstFiringAt(guards: seq<Guard>, k: nat)
    requires k < |guards| && guards[k].fires
    requires forall j :: 0 <= j < k ==> !guards[j].fires
    ensures FirstFiring(guards) == Fail(ValidationError(guards[k].message))
  {
    if k > 0 {
      assert !guards[0].fires;
      assert forall j :: 0 <= j < k - 1 ==> !guards[1..][j].fires by {
        forall j | 0 <= j < k - 1 ensures !guards[1..][j].fires {
          assert guards[1..][j] == guards[j + 1];
        }
      }
      FirstFiringAt(guards[1..], k - 1);
    }
  }

  /** Running two guard chains one after the other is one chain of all their guards. */
  lemma {:induction false} FirstFiringAppend(a: seq<Guard>, b: seq<Guard>)
    ensures FirstFiring(a + b) == if FirstFiring(a).Fail? then FirstFiring(a) else FirstFiring(b)
  {
    if a == [] {
      assert a + b == b;
    } else {
      assert (a + b)[0] == a[0];
      assert (a + b)[1..] == a[1..] + b;
      FirstFiringAppend(a[1..], b);
    }
  }

  /** Two sections checked with `?` one after the other: the first failure wins. */
  lemma ChainTwo(x: Verdict, y: Verdict)
    ensures Chain([x, y]) == if x.Fail? then x else y
  {
    assert [x, y][1..] == [y];
    assert [y][1..] == [];
  }

  /** Three sections checked with `?` one after the other: the first failure wins. */
  lemma ChainThree(x: Verdict, y: Verdict, z: Verdict)
    ensures Chain([x, y, z]) == if x.Fail? then x else if y.Fail? then y else z
  {
    assert [x, y, z][1..] == [y, z];
    assert [y, z][1..] == [z];
    assert [z][1..] == [];
  }

  /** Three guard chains in sequence are one chain over their guards, in order. */
  lemma ChainThreeFlat(a: seq<Guard>, b: seq<Guard>, c: seq<Guard>)
    ensures Chain([FirstFiring(a), FirstFiring(b), FirstFiring(c)]) == FirstFiring(a + b + c)
  {
    ChainThree(FirstFiring(a), FirstFiring(b), FirstFiring(c));
    FirstFiringAppend(a, b);
    FirstFiringAppend(a + b, c);
  }
}
