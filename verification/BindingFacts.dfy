/** When the bindings of an external call and of a workflow output are met, and with which values
    (packages/dialogue-engine/src/api-call.ts, workflow-output.ts). */
module BindingFacts {
  import opened Prelude
  import opened Dialogue
  import opened OutputExecutor

  /** A constant stands for itself; a slot for what the form of this turn holds, unless that is blank. */
  ghost predicate Met(b: Binding, form: Option<CompletedForm>, v: BoundValue)
  {
    match b
    case ConstValue(value) => v == BoundValue(value, false)
    case SlotValue(formId, slot) =>
      && form.Some? && form.value.contextVariableId == formId && slot in form.value.values
      && (exists k :: 0 <= k < |form.value.values[slot]| && !IsSpace(form.value.values[slot][k]))
      && v == BoundValue(form.value.values[slot], true)
  }

  ghost predicate CanBeMet(b: Binding, form: Option<CompletedForm>) { exists v :: Met(b, form, v) }

  lemma {:induction false} BlankIsTrimmed(s: string)
    ensures Trim(s) == [] <==> forall k :: 0 <= k < |s| ==> IsSpace(s[k])
  {
    hide IsSpace;
    BlankStart(s);
    BlankEnd(TrimStart(s));
  }

  lemma {:induction false} BlankStart(s: string)
    ensures TrimStart(s) == [] <==> forall k :: 0 <= k < |s| ==> IsSpace(s[k])
  {
    hide IsSpace;
    if s != [] && IsSpace(s[0]) {
      BlankStart(s[1..]);
      assert forall k :: 0 < k < |s| ==> s[k] == s[1..][k - 1];
    }
  }

  lemma {:induction false} BlankEnd(s: string)
    ensures s != [] && !IsSpace(s[0]) ==> TrimEnd(s) != []
  {
    hide IsSpace;
    if s != [] && !IsSpace(s[0]) && IsSpace(s[|s| - 1]) {
      BlankEnd(s[..|s| - 1]);
    }
  }

  lemma BindingMet(b: Binding, form: Option<CompletedForm>)
    ensures var r := ResolveBinding(b, form); (r.Some? <==> CanBeMet(b, form)) && (r.Some? ==> Met(b, form, r.value))
  {
    hide Trim, IsSpace;
    if b.SlotValue? && form.Some? && b.slotName in form.value.values {
      BlankIsTrimmed(form.value.values[b.slotName]);
    }
    if ResolveBinding(b, form).Some? {
      assert Met(b, form, ResolveBinding(b, form).value);
    }
  }

  ghost predicate AllCanBeMet(bs: seq<Binding>, form: Option<CompletedForm>)
  {
    forall i :: 0 <= i < |bs| ==> CanBeMet(bs[i], form)
  }

  ghost predicate FieldsCanBeMet(fs: seq<NamedBinding>, form: Option<CompletedForm>)
  {
    forall i :: 0 <= i < |fs| ==> CanBeMet(fs[i].value, form)
  }

  /** One bound field for each field, of the same name, in the same order. */
  ghost predicate FieldsMet(fs: seq<NamedBinding>, form: Option<CompletedForm>, r: seq<BoundField>)
  {
    |r| == |fs| && forall i :: 0 <= i < |r| ==> r[i].name == fs[i].name && Met(fs[i].value, form, r[i].value)
  }

  lemma AllMet(bs: seq<Binding>, form: Option<CompletedForm>)
    ensures var r := ResolveAll(bs, form);
      && (r.Some? <==> AllCanBeMet(bs, form))
      && (r.Some? ==> |r.value| == |bs| && forall i :: 0 <= i < |bs| ==> Met(bs[i], form, r.value[i]))
  {
    hide ResolveAll, ResolveBinding, Met, CanBeMet;
    forall i | 0 <= i < |bs| ensures (ResolveBinding(bs[i], form).Some? <==> CanBeMet(bs[i], form))
      && (ResolveBinding(bs[i], form).Some? ==> Met(bs[i], form, ResolveBinding(bs[i], form).value)) {
      BindingMet(bs[i], form);
    }
  }

  lemma AllFieldsMet(fs: seq<NamedBinding>, form: Option<CompletedForm>)
    ensures var r := ResolveFields(fs, form); (r.Some? <==> FieldsCanBeMet(fs, form)) && (r.Some? ==> FieldsMet(fs, form, r.value))
  {
    hide ResolveFields, ResolveBinding, Met, CanBeMet;
    forall i | 0 <= i < |fs| ensures (ResolveBinding(fs[i].value, form).Some? <==> CanBeMet(fs[i].value, form))
      && (ResolveBinding(fs[i].value, form).Some? ==> Met(fs[i].value, form, ResolveBinding(fs[i].value, form).value)) {
      BindingMet(fs[i].value, form);
    }
  }

  /** A request is made if and only if every path value, query field and body field can be met; it goes to the
      connection, path and method of the call, with every value in its place. */
  lemma RequestBound(p: ApiPayload, form: Option<CompletedForm>)
    ensures var r := BindRequest(p, form);
      && (r.Some? <==> AllCanBeMet(p.pathParams, form) && FieldsCanBeMet(p.query, form) && FieldsCanBeMet(p.body, form))
      && (r.Some? ==>
            && r.value.connectionId == p.connectionId && r.value.verb == p.verb && r.value.pathTemplate == p.path
            && |r.value.pathValues| == |p.pathParams|
            && (forall i :: 0 <= i < |p.pathParams| ==> Met(p.pathParams[i], form, r.value.pathValues[i]))
            && FieldsMet(p.query, form, r.value.query) && FieldsMet(p.body, form, r.value.body))
  {
    hide ResolveAll, ResolveFields, Met, CanBeMet, FieldsMet, AllCanBeMet, FieldsCanBeMet;
    AllMet(p.pathParams, form);
    AllFieldsMet(p.query, form);
    AllFieldsMet(p.body, form);
  }

  /** A workflow event names the place it comes from, and holds all its fields or, when one cannot be met, none. */
  lemma EmissionBound(p: WorkflowPayload, nodeId: Id, index: nat, form: Option<CompletedForm>)
    ensures var e := BindWorkflow(p, nodeId, index, form);
      && e.nodeId == nodeId && e.outputIndex == index && e.targetId == p.targetId && e.actionKey == p.actionKey
      && (e.bindingMissing <==> !FieldsCanBeMet(p.fields, form))
      && (if e.bindingMissing then e.fields == [] else FieldsMet(p.fields, form, e.fields))
  {
    hide ResolveFields, Met, CanBeMet, FieldsMet, FieldsCanBeMet;
    AllFieldsMet(p.fields, form);
  }
}
