/**
 * The parallel-step group entity of the pipeline object model: a job step that
 * owns an ordered list of child steps and an outputs dictionary. Both
 * collections are absent (`null`) until a getter first touches them, a clone
 * copies only the non-empty ones, and serialisation collapses empty ones back
 * to absent so that the wire form never carries an empty container.
 *
 * The outputs dictionary the getter creates ignores case in its keys; one
 * that arrived through deserialisation carries the comparer the deserialiser
 * gave it. The copy constructor always copies into an ignore-case
 * dictionary, so cloning fails when a source dictionary holds two keys that
 * are equal ignoring case.
 */
module Pipelines {
  import opened Wrappers
  import opened Dictionaries

  /** The type discriminator of a step. */
  datatype StepType = Task | TaskTemplate | Group | Action | Parallel

  /** The type of a step of another variant: only a parallel group reports `Parallel`. */
  type OtherKind = k: StepType | k != Parallel witness Task

  /** The fields every job step inherits from its base class; copied verbatim by a clone. */
  datatype JobStepFields = JobStepFields(name: string, displayName: string, condition: string)

  /** A pipeline step: a parallel group, or a step of another variant. */
  datatype Step =
    | ParallelGroup(group: ParallelStep)
    | OtherStep(kind: OtherKind, fields: JobStepFields)

  /** The child-list slot: `null` until first touched. */
  datatype StepList = Null | List(items: seq<Step>)

  datatype ParallelStep = ParallelStep(
    fields: JobStepFields,
    steps: StepList,
    outputs: Option<Dict>)

  predicate HasChildren(p: ParallelStep) {
    p.steps.List? && |p.steps.items| > 0
  }

  predicate HasOutputs(p: ParallelStep) {
    p.outputs.Some? && |p.outputs.value.entries| > 0
  }

  /** The `Type` property: a parallel group reports `Parallel`; other variants report their own kind. */
  function TypeOf(s: Step): (r: StepType)
    ensures r == Parallel <==> s.ParallelGroup?
    ensures s.OtherStep? ==> r == s.kind
  {
    match s
    case ParallelGroup(_) => Parallel
    case OtherStep(kind, _) => kind
  }

  /**
   * The `Steps` getter. It never yields `null`: the first access stores a new
   * empty list in the entity, later accesses hand back the stored list. The
   * first component is the entity after the access.
   */
  function Steps(p: ParallelStep): (r: (ParallelStep, seq<Step>))
    ensures r.0.steps == List(r.1)
    ensures p.steps.Null? ==> r.1 == []
    ensures p.steps.List? ==> r.0 == p
    ensures r.0.fields == p.fields && r.0.outputs == p.outputs
  {
    match p.steps
    case Null => (p.(steps := List([])), [])
    case List(xs) => (p, xs)
  }

  /** The `Outputs` getter: absent outputs become a stored, empty, ignore-case dictionary. */
  function Outputs(p: ParallelStep): (r: (ParallelStep, Dict))
    ensures r.0.outputs == Some(r.1)
    ensures p.outputs.None? ==> r.1 == Empty(OrdinalIgnoreCase)
    ensures p.outputs.Some? ==> r.0 == p
    ensures r.0.fields == p.fields && r.0.steps == p.steps
  {
    match p.outputs
    case None => (p.(outputs := Some(Empty(OrdinalIgnoreCase))), Empty(OrdinalIgnoreCase))
    case Some(d) => (p, d)
  }

  /** `p.Steps.Add(s)` */
  function AddStep(p: ParallelStep, s: Step): (r: ParallelStep)
    ensures r.steps.List? && |r.steps.items| > 0 && r.steps.items[|r.steps.items| - 1] == s
    ensures r.steps.items[..|r.steps.items| - 1] == Steps(p).1
    ensures r.fields == p.fields && r.outputs == p.outputs
  {
    var (q, xs) := Steps(p);
    assert (xs + [s])[..|xs|] == xs;
    q.(steps := List(xs + [s]))
  }

  /** `p.Outputs[k] = v`, through whatever comparer the stored dictionary has. */
  function SetOutput(p: ParallelStep, k: string, v: string): (r: ParallelStep)
    ensures r.outputs.Some? && r.outputs.value.comparer == Outputs(p).1.comparer
    ensures Get(r.outputs.value, k) == Some(v)
    ensures forall k' :: !KeysEqual(Outputs(p).1.comparer, k', k) ==>
              Get(r.outputs.value, k') == Get(Outputs(p).1, k')
    ensures r.fields == p.fields && r.steps == p.steps
  {
    var (q, d) := Outputs(p);
    q.(outputs := Some(Set(d, k, v)))
  }

  /** Later accesses to `Steps` hand back what the first access stored. */
  lemma StepsGetterStable(p: ParallelStep)
    ensures Steps(Steps(p).0) == Steps(p)
    ensures Steps(p).1 == (if p.steps.List? then p.steps.items else [])
  {
  }

  /** Later accesses to `Outputs` hand back what the first access stored. */
  lemma OutputsGetterStable(p: ParallelStep)
    ensures Outputs(Outputs(p).0) == Outputs(p)
    ensures Outputs(p).1 == (if p.outputs.Some? then p.outputs.value else Empty(OrdinalIgnoreCase))
  {
  }

  /**
   * The `[OnSerializing]` hook: an empty materialised collection becomes
   * absent; a non-empty or already absent one is left as it is.
   */
  function OnSerializing(p: ParallelStep): (r: ParallelStep)
    ensures r.fields == p.fields
    ensures r.steps.Null? <==> !HasChildren(p)
    ensures r.steps.List? ==> r.steps == p.steps
    ensures r.outputs.None? <==> !HasOutputs(p)
    ensures r.outputs.Some? ==> r.outputs == p.outputs
  {
    ParallelStep(
      p.fields,
      if p.steps.List? && |p.steps.items| == 0 then Null else p.steps,
      if p.outputs.Some? && |p.outputs.value.entries| == 0 then None else p.outputs)
  }

  lemma OnSerializingIdempotent(p: ParallelStep)
    ensures OnSerializing(OnSerializing(p)) == OnSerializing(p)
  {
  }

  /** The data members of a parallel step besides those of its base class. */
  datatype Field = StepsField | OutputsField

  /** The members written out: `EmitDefaultValue = false` omits a `null` member. */
  function EmittedFields(p: ParallelStep): set<Field> {
    (if p.steps.List? then {StepsField} else {}) + (if p.outputs.Some? then {OutputsField} else {})
  }

  /** After the hook has run, exactly the non-empty collections are emitted. */
  lemma EmittedAfterNormalising(p: ParallelStep)
    ensures StepsField in EmittedFields(OnSerializing(p)) <==> HasChildren(p)
    ensures OutputsField in EmittedFields(OnSerializing(p)) <==> HasOutputs(p)
  {
  }

  /** The encoded form of a step. */
  datatype Wire =
    | WireParallel(fields: JobStepFields, steps: WireList, outputs: Option<seq<(string, string)>>)
    | WireOther(kind: OtherKind, otherFields: JobStepFields)

  datatype WireList = Omitted | Members(items: seq<Wire>)

  /** No empty container appears anywhere in an encoding. */
  ghost predicate Compact(w: Wire) {
    match w
    case WireOther(_, _) => true
    case WireParallel(_, steps, outputs) =>
      && (steps.Members? ==> |steps.items| > 0 && forall i :: 0 <= i < |steps.items| ==> Compact(steps.items[i]))
      && (outputs.Some? ==> |outputs.value| > 0)
  }

  /** Serialises a step; every parallel group in it runs its hook first. */
  function Encode(s: Step): (r: Wire)
    ensures Compact(r)
    decreases s
  {
    match s
    case OtherStep(kind, fields) => WireOther(kind, fields)
    case ParallelGroup(p) => EncodeGroup(p)
  }

  function EncodeGroup(p: ParallelStep): (r: Wire)
    ensures r.WireParallel? && r.fields == p.fields
    ensures r.steps.Members? <==> StepsField in EmittedFields(OnSerializing(p))
    ensures r.outputs.Some? <==> OutputsField in EmittedFields(OnSerializing(p))
    ensures r.steps.Members? ==>
              && |r.steps.items| == |p.steps.items|
              && forall i :: 0 <= i < |r.steps.items| ==> r.steps.items[i] == Encode(p.steps.items[i])
    ensures r.outputs.Some? ==> r.outputs.value == Pairs(p.outputs.value.entries)
    ensures Compact(r)
    decreases p
  {
    var steps :=
      match p.steps
      case List(xs) =>
        if |xs| == 0 then Omitted
        else Members(seq(|xs|, i requires 0 <= i < |xs| => Encode(xs[i])))
      case Null => Omitted;
    var outputs :=
      match p.outputs
      case Some(d) => if |d.entries| == 0 then None else Some(Pairs(d.entries))
      case None => None;
    WireParallel(p.fields, steps, outputs)
  }

  /** The key/value pairs of a dictionary in enumeration order. */
  function Pairs(entries: seq<Entry>): (r: seq<(string, string)>)
    ensures |r| == |entries|
  {
    seq(|entries|, i requires 0 <= i < |entries| => (entries[i].key, entries[i].value))
  }

  /** Serialising the normalised entity gives the same encoding as serialising it directly. */
  lemma EncodeNormalised(p: ParallelStep)
    ensures EncodeGroup(OnSerializing(p)) == EncodeGroup(p)
  {
  }

  /**
   * The copy constructor succeeds on a group when every non-empty outputs
   * dictionary in it, at every depth, has no two keys equal ignoring case.
   */
  ghost predicate CopyableGroup(p: ParallelStep)
    decreases p
  {
    && (HasOutputs(p) ==> NoDuplicateKeys(OrdinalIgnoreCase, p.outputs.value.entries))
    && (p.steps.List? ==> forall i :: 0 <= i < |p.steps.items| ==> Copyable(p.steps.items[i]))
  }

  ghost predicate Copyable(s: Step)
    decreases s
  {
    s.ParallelGroup? ==> CopyableGroup(s.group)
  }

  /**
   * `Clone()`: a parallel group is rebuilt through the private copy
   * constructor; a step of another variant is copied as a value. `None`
   * stands for the `ArgumentException` the copy constructor throws.
   */
  function Clone(s: Step): (r: Option<Step>)
    ensures r.Some? <==> Copyable(s)
    ensures s.OtherStep? ==> r == Some(s)
    ensures s.ParallelGroup? ==> (r.Some? <==> CloneGroup(s.group).Some?)
    ensures s.ParallelGroup? && r.Some? ==> r.value == ParallelGroup(CloneGroup(s.group).value)
    decreases s
  {
    match s
    case OtherStep(_, _) => Some(s)
    case ParallelGroup(p) =>
      match CloneGroup(p)
      case Some(g) => Some(ParallelGroup(g))
      case None => None
  }

  /**
   * The private copy constructor. Children are cloned one by one in order
   * into a fresh list only when the source has at least one child. The
   * outputs are copied into a fresh ignore-case dictionary only when the
   * source has at least one output; that copy throws when two source keys are
   * equal ignoring case, and so does a child's clone. Otherwise a collection
   * stays absent.
   */
  function CloneGroup(p: ParallelStep): (r: Option<ParallelStep>)
    ensures r.Some? <==> CopyableGroup(p)
    ensures r.Some? ==> r.value.fields == p.fields
    ensures r.Some? ==> (r.value.steps.Null? <==> !HasChildren(p))
    ensures r.Some? && r.value.steps.List? ==>
              && |r.value.steps.items| == |p.steps.items|
              && forall i :: 0 <= i < |r.value.steps.items| ==> Clone(p.steps.items[i]) == Some(r.value.steps.items[i])
    ensures r.Some? ==> (r.value.outputs.None? <==> !HasOutputs(p))
    ensures r.Some? && r.value.outputs.Some? ==>
              r.value.outputs.value == Dictionary(OrdinalIgnoreCase, p.outputs.value.entries)
    decreases p
  {
    var children := if p.steps.List? then p.steps.items else [];
    if exists i :: 0 <= i < |children| && Clone(children[i]).None? then None
    else if HasOutputs(p) && CopyWith(OrdinalIgnoreCase, p.outputs.value).None? then None
    else
      var steps :=
        if |children| == 0 then Null
        else List(seq(|children|, i requires 0 <= i < |children| && Clone(children[i]).Some? => Clone(children[i]).value));
      var outputs := if HasOutputs(p) then CopyWith(OrdinalIgnoreCase, p.outputs.value) else None;
      Some(ParallelStep(p.fields, steps, outputs))
  }

  /** A group whose outputs hold `a` and `A` under the ordinal comparer cannot be cloned. */
  lemma CaseVariantOutputsBreakClone(fields: JobStepFields, steps: StepList)
    ensures CloneGroup(ParallelStep(fields, steps, Some(Dictionary(Ordinal, [Entry("a", "1"), Entry("A", "2")])))) == None
  {
    CaseVariantsDoNotCopy();
  }

  /** A clone is already in serialisation form: the hook changes nothing in it. */
  lemma CloneIsNormalised(p: ParallelStep)
    ensures CloneGroup(p).Some? ==> OnSerializing(CloneGroup(p).value) == CloneGroup(p).value
  {
  }

  /** Cloning a clone succeeds and gives the clone back. */
  lemma {:induction false} CloneIdempotent(s: Step)
    ensures Clone(s).Some? ==> Clone(Clone(s).value) == Clone(s)
    decreases s
  {
    match s
    case OtherStep(_, _) =>
    case ParallelGroup(p) => CloneGroupIdempotent(p);
  }

  lemma {:induction false} CloneGroupIdempotent(p: ParallelStep)
    ensures CloneGroup(p).Some? ==> CloneGroup(CloneGroup(p).value) == CloneGroup(p)
    decreases p
  {
    if CloneGroup(p).Some? {
      var c := CloneGroup(p).value;
      if c.steps.List? {
        var xs := p.steps.items;
        forall i | 0 <= i < |xs|
          ensures Clone(c.steps.items[i]) == Some(c.steps.items[i])
        {
          CloneIdempotent(xs[i]);
        }
      }
      if c.outputs.Some? {
        CopySameComparer(c.outputs.value);
      }
      var cc := CloneGroup(c).value;
      assert cc.steps == c.steps;
    }
  }

  /** A clone is indistinguishable from its source on the wire. */
  lemma {:induction false} EncodeClone(s: Step)
    ensures Clone(s).Some? ==> Encode(Clone(s).value) == Encode(s)
    decreases s
  {
    match s
    case OtherStep(_, _) =>
    case ParallelGroup(p) => EncodeCloneGroup(p);
  }

  lemma {:induction false} EncodeCloneGroup(p: ParallelStep)
    ensures CloneGroup(p).Some? ==> EncodeGroup(CloneGroup(p).value) == EncodeGroup(p)
    decreases p
  {
    if CloneGroup(p).Some? {
      var c := CloneGroup(p).value;
      var ec := EncodeGroup(c);
      var ep := EncodeGroup(p);
      if HasChildren(p) {
        var xs := p.steps.items;
        forall i | 0 <= i < |xs|
          ensures ec.steps.items[i] == ep.steps.items[i]
        {
          EncodeClone(xs[i]);
        }
      }
    }
  }

  /**
   * Writing to a clone's collections lands in the clone: it gets the appended
   * child after copies of the source's children, and the output it was given
   * in an ignore-case dictionary. When the source's outputs are absent or
   * ignore case, every other output reads as in the source.
   */
  lemma CloneMutationsStayInClone(p: ParallelStep, s: Step, k: string, v: string)
    ensures CloneGroup(p).Some? ==>
              var c := AddStep(CloneGroup(p).value, s);
              && c.steps.items[..|c.steps.items| - 1] == (if HasChildren(p) then CloneGroup(p).value.steps.items else [])
              && c.steps.items[|c.steps.items| - 1] == s
    ensures CloneGroup(p).Some? ==>
              var c := SetOutput(CloneGroup(p).value, k, v);
              && c.outputs.value.comparer == OrdinalIgnoreCase
              && Get(c.outputs.value, k) == Some(v)
              && ((p.outputs.None? || p.outputs.value.comparer == OrdinalIgnoreCase) ==>
                    forall k' :: !KeysEqual(OrdinalIgnoreCase, k', k) ==>
                      Get(c.outputs.value, k') == Get(Outputs(p).1, k'))
  {
  }

  /**
   * In a clone's outputs, keys that differ only in case address the same
   * entry, the one whose source key equals them ignoring case; a write under
   * one spelling is read back under the other.
   */
  lemma CloneOutputsIgnoreCase(p: ParallelStep, a: string, b: string, v: string)
    requires HasOutputs(p)
    requires KeysEqual(OrdinalIgnoreCase, a, b)
    ensures CloneGroup(p).Some? ==>
              && Get(CloneGroup(p).value.outputs.value, a) == Get(CloneGroup(p).value.outputs.value, b)
              && forall i :: 0 <= i < |p.outputs.value.entries| && KeysEqual(OrdinalIgnoreCase, p.outputs.value.entries[i].key, b) ==>
                   Get(CloneGroup(p).value.outputs.value, a) == Some(p.outputs.value.entries[i].value)
    ensures CloneGroup(p).Some? ==> Get(SetOutput(CloneGroup(p).value, a, v).outputs.value, b) == Some(v)
  {
  }

  /** The same holds of the dictionary the `Outputs` getter creates, and of any other ignore-case one. */
  lemma GetterOutputsIgnoreCase(p: ParallelStep, a: string, b: string, v: string)
    requires p.outputs.None? || p.outputs.value.comparer == OrdinalIgnoreCase
    requires KeysEqual(OrdinalIgnoreCase, a, b)
    ensures Get(SetOutput(p, a, v).outputs.value, b) == Some(v)
  {
  }
}
