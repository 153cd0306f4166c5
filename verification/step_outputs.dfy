/** Step outputs shared between concurrent steps (internal/agent/stepoutputs.go and the safeStepCtx
    of pipeline.go).
  */
module StepValues {
  import opened Common

  /** An output: plain text, or one text per matrix combination. */
  datatype Value = Text(text: string) | PerCombo(texts: map<string, string>)

  /** StepData as a value: the outputs, and the child run ID of a call step. */
  datatype Step = Step(outputs: map<string, Value>, child: Option<Value>)

  type Steps = map<string, Step>

  /** A finished member of a stage: its step name, its combination key ("" outside a matrix), its
      outputs, and for a call step the child run ID. */
  datatype Finished = Finished(name: string, key: string, outputs: map<string, string>, child: Option<string>)

  const NO_STEP := Step(map[], None)

  function StepOf(steps: Steps, name: string): Step {
    if name in steps then steps[name] else NO_STEP
  }

  function AsTexts(outputs: map<string, string>): map<string, Value> {
    map k | k in outputs :: Text(outputs[k])
  }

  /** v with this combination's text set; a plain text is replaced. */
  function WithCombo(v: Option<Value>, key: string, text: string): Value {
    if v.Some? && v.value.PerCombo? then PerCombo(v.value.texts[key := text]) else PerCombo(map[key := text])
  }

  function Lookup(outputs: map<string, Value>, k: string): Option<Value> {
    if k in outputs then Some(outputs[k]) else None
  }

  /** The outputs in `done` merged into a step's outputs under a combination key. */
  function OutputsMerged(values: map<string, Value>, key: string, outputs: map<string, string>, done: set<string>): map<string, Value>
    requires done <= outputs.Keys
  {
    map k | k in values.Keys + done :: if k in done then WithCombo(Lookup(values, k), key, outputs[k]) else values[k]
  }

  /** What ApplyStepOutputs makes of a step's outputs: replaced, or merged under a combination key. */
  function OutputsApplied(values: map<string, Value>, key: string, outputs: map<string, string>): map<string, Value> {
    if key == "" then AsTexts(outputs) else OutputsMerged(values, key, outputs, outputs.Keys)
  }

  /** What becomes of the child run ID: a plain result replaces the whole step data, so it is set or
      cleared; a combination's is merged by ApplyChildRunID. */
  function ChildApplied(child: Option<Value>, f: Finished): Option<Value> {
    if f.key == "" then if f.child.Some? then Some(Text(f.child.value)) else None
    else if f.child.Some? then Some(WithCombo(child, f.key, f.child.value))
    else child
  }

  function StepApplied(s: Step, f: Finished): Step {
    Step(OutputsApplied(s.outputs, f.key, f.outputs), ChildApplied(s.child, f))
  }

  /** Recording a finished member: setStep, setStepMatrixOutputs or setCallStepResult. */
  function Recorded(steps: Steps, f: Finished): Steps {
    steps[f.name := StepApplied(StepOf(steps, f.name), f)]
  }

  lemma OneMoreOutput(values: map<string, Value>, key: string, outputs: map<string, string>, done: set<string>, k: string)
    requires done <= outputs.Keys && k in outputs
    ensures OutputsMerged(values, key, outputs, done + {k}) ==
            OutputsMerged(values, key, outputs, done)[k := WithCombo(Lookup(values, k), key, outputs[k])]
  {
  }

  function RecordedAll(steps: Steps, fs: seq<Finished>): Steps
    decreases |fs|
  {
    if fs == [] then steps else RecordedAll(Recorded(steps, fs[0]), fs[1..])
  }

  /** One output after a matrix member is recorded. */
  function OutputApplied(v: Option<Value>, key: string, outputs: map<string, string>, k: string): Option<Value> {
    if k in outputs then Some(WithCombo(v, key, outputs[k])) else v
  }

  lemma OutputsPointwise(values: map<string, Value>, key: string, outputs: map<string, string>, k: string)
    requires key != ""
    ensures Lookup(OutputsApplied(values, key, outputs), k) == OutputApplied(Lookup(values, k), key, outputs, k)
  {
  }

  /** What is recorded can be read: a plain result is the whole data of its step; a combination's outputs
      and child run ID stand under its key, and whatever stood under other keys, other outputs and
      other steps is left as it was. */
  lemma RecordedReads(steps: Steps, f: Finished, name: string, k: string, key: string)
    ensures name != f.name ==> (name in Recorded(steps, f) <==> name in steps) && (name in steps ==> Recorded(steps, f)[name] == steps[name])
    ensures f.name in Recorded(steps, f)
    ensures var s, r := StepOf(steps, f.name), Recorded(steps, f)[f.name];
            if f.key == "" then
              && (k in r.outputs <==> k in f.outputs) && (k in f.outputs ==> r.outputs[k] == Text(f.outputs[k]))
              && r.child == if f.child.Some? then Some(Text(f.child.value)) else None
            else
              && ComboText(r.outputs, k, f.key) == (if k in f.outputs then Some(f.outputs[k]) else ComboText(s.outputs, k, f.key))
              && (key != f.key ==> ComboText(r.outputs, k, key) == ComboText(s.outputs, k, key))
              && (k !in f.outputs ==> Lookup(r.outputs, k) == Lookup(s.outputs, k))
              && TextFor(r.child, f.key) == (if f.child.Some? then f.child else TextFor(s.child, f.key))
              && (key != f.key ==> TextFor(r.child, key) == TextFor(s.child, key))
              && (f.child.None? ==> r.child == s.child)
  {
    if f.key != "" {
      OutputsPointwise(StepOf(steps, f.name).outputs, f.key, f.outputs, k);
    }
  }

  /** The text recorded under a combination's key. */
  function TextFor(v: Option<Value>, key: string): Option<string> {
    if v.Some? && v.value.PerCombo? && key in v.value.texts then Some(v.value.texts[key]) else None
  }

  function ComboText(outputs: map<string, Value>, k: string, key: string): Option<string> {
    TextFor(Lookup(outputs, k), key)
  }

  /** Results that do not get in each other's way: of different steps, or of different combinations
      of one matrix step; otherwise they have to say the same where both say something, and a plain
      result, which replaces the whole step data, is compatible with a combination's only if that
      one records nothing. */
  predicate Compatible(a: Finished, b: Finished) {
    a.name != b.name ||
    if a.key == "" && b.key == "" then a.outputs == b.outputs && a.child == b.child
    else if a.key == "" then Empty(b)
    else if b.key == "" then Empty(a)
    else a.key != b.key || Agree(a, b)
  }

  predicate Empty(f: Finished) {
    f.outputs == map[] && f.child.None?
  }

  predicate Agree(a: Finished, b: Finished) {
    && (forall k :: k in a.outputs && k in b.outputs ==> a.outputs[k] == b.outputs[k])
    && (a.child.Some? && b.child.Some? ==> a.child == b.child)
  }

  lemma SameLookups(m: map<string, Value>, n: map<string, Value>)
    requires forall k :: Lookup(m, k) == Lookup(n, k)
    ensures m == n
  {
    forall k
      ensures k in m <==> k in n
      ensures k in m ==> m[k] == n[k]
    {
      assert Lookup(m, k) == Lookup(n, k);
    }
  }

  /** What two combinations leave of one output, in this order. */
  lemma TwoCombos(values: map<string, Value>, a: Finished, b: Finished, k: string)
    requires a.key != "" && b.key != ""
    ensures Lookup(OutputsApplied(OutputsApplied(values, a.key, a.outputs), b.key, b.outputs), k) ==
            OutputApplied(OutputApplied(Lookup(values, k), a.key, a.outputs, k), b.key, b.outputs, k)
  {
    OutputsPointwise(values, a.key, a.outputs, k);
    OutputsPointwise(OutputsApplied(values, a.key, a.outputs), b.key, b.outputs, k);
  }

  lemma WithComboCommutes(v: Option<Value>, a: string, x: string, b: string, y: string)
    requires a != b || x == y
    ensures WithCombo(Some(WithCombo(v, a, x)), b, y) == WithCombo(Some(WithCombo(v, b, y)), a, x)
  {
  }

  lemma CombosCommute(s: Step, a: Finished, b: Finished)
    requires a.key != "" && b.key != "" && (a.key != b.key || Agree(a, b))
    ensures StepApplied(StepApplied(s, a), b) == StepApplied(StepApplied(s, b), a)
  {
    var ab := OutputsApplied(OutputsApplied(s.outputs, a.key, a.outputs), b.key, b.outputs);
    var ba := OutputsApplied(OutputsApplied(s.outputs, b.key, b.outputs), a.key, a.outputs);
    forall k
      ensures Lookup(ab, k) == Lookup(ba, k)
    {
      TwoCombos(s.outputs, a, b, k);
      TwoCombos(s.outputs, b, a, k);
      if k in a.outputs && k in b.outputs {
        WithComboCommutes(Lookup(s.outputs, k), a.key, a.outputs[k], b.key, b.outputs[k]);
      }
    }
    if a.child.Some? && b.child.Some? {
      WithComboCommutes(s.child, a.key, a.child.value, b.key, b.child.value);
    }
    SameLookups(ab, ba);
  }

  /** A combination that records nothing leaves a step with outputs as it is. */
  lemma EmptyChangesNothing(s: Step, f: Finished)
    requires f.key != "" && Empty(f)
    ensures StepApplied(s, f) == s
  {
    forall k
      ensures Lookup(StepApplied(s, f).outputs, k) == Lookup(s.outputs, k)
    {
      OutputsPointwise(s.outputs, f.key, f.outputs, k);
    }
    SameLookups(StepApplied(s, f).outputs, s.outputs);
  }

  /** Two compatible members may finish in either order. */
  lemma RecordedCommutes(steps: Steps, a: Finished, b: Finished)
    requires Compatible(a, b)
    ensures Recorded(Recorded(steps, a), b) == Recorded(Recorded(steps, b), a)
  {
    if a.name == b.name {
      var s := StepOf(steps, a.name);
      if a.key != "" && b.key != "" {
        CombosCommute(s, a, b);
      } else if a.key != "" {
        EmptyChangesNothing(s, a);
        EmptyChangesNothing(StepApplied(s, b), a);
      } else if b.key != "" {
        EmptyChangesNothing(s, b);
        EmptyChangesNothing(StepApplied(s, a), b);
      }
    }
  }

  /** The order of two members shows in a step that had no result before. */
  ghost predicate Differ(a: Finished, b: Finished) {
    var ab, ba := StepApplied(StepApplied(NO_STEP, a), b), StepApplied(StepApplied(NO_STEP, b), a);
    ab.child != ba.child || exists k :: Lookup(ab.outputs, k) != Lookup(ba.outputs, k)
  }

  lemma PlainResultsDiffer(a: Finished, b: Finished)
    requires a.key == "" && b.key == "" && (a.outputs != b.outputs || a.child != b.child)
    ensures Differ(a, b)
  {
    if a.child == b.child {
      var k :| (k in a.outputs) != (k in b.outputs) || (k in a.outputs && a.outputs[k] != b.outputs[k]);
      var ab, ba := StepApplied(StepApplied(NO_STEP, a), b), StepApplied(StepApplied(NO_STEP, b), a);
      assert Lookup(ab.outputs, k) != Lookup(ba.outputs, k);
    }
  }

  lemma MixedResultsDiffer(plain: Finished, combo: Finished)
    requires plain.key == "" && combo.key != "" && !Empty(combo)
    ensures Differ(plain, combo) && Differ(combo, plain)
  {
    var pc, cp := StepApplied(StepApplied(NO_STEP, plain), combo), StepApplied(StepApplied(NO_STEP, combo), plain);
    if combo.child.None? {
      var k :| k in combo.outputs;
      OutputsPointwise(StepApplied(NO_STEP, plain).outputs, combo.key, combo.outputs, k);
      assert Lookup(pc.outputs, k).value.PerCombo?;
      assert Lookup(pc.outputs, k) != Lookup(cp.outputs, k);
    }
  }

  lemma SameCombinationDiffers(a: Finished, b: Finished)
    requires a.key != "" && a.key == b.key && !Agree(a, b)
    ensures Differ(a, b)
  {
    var ab, ba := StepApplied(StepApplied(NO_STEP, a), b), StepApplied(StepApplied(NO_STEP, b), a);
    if k :| k in a.outputs && k in b.outputs && a.outputs[k] != b.outputs[k] {
      TwoCombos(NO_STEP.outputs, a, b, k);
      TwoCombos(NO_STEP.outputs, b, a, k);
      assert Lookup(ab.outputs, k).value.texts[a.key] == b.outputs[k];
      assert Lookup(ba.outputs, k).value.texts[a.key] == a.outputs[k];
    } else {
      assert ab.child.value.texts[a.key] == b.child.value;
      assert ba.child.value.texts[a.key] == a.child.value;
    }
  }

  lemma OrderShows(a: Finished, b: Finished)
    requires !Compatible(a, b)
    ensures Recorded(Recorded(map[], a), b) != Recorded(Recorded(map[], b), a)
  {
    if a.key == "" && b.key == "" {
      PlainResultsDiffer(a, b);
    } else if a.key == "" {
      MixedResultsDiffer(a, b);
    } else if b.key == "" {
      MixedResultsDiffer(b, a);
    } else {
      SameCombinationDiffers(a, b);
    }
    assert Recorded(Recorded(map[], a), b)[a.name] == StepApplied(StepApplied(NO_STEP, a), b);
    assert Recorded(Recorded(map[], b), a)[a.name] == StepApplied(StepApplied(NO_STEP, b), a);
  }

  /** Two members may finish in either order, whatever was recorded before, if and only if they are
      compatible. */
  lemma PairCommutesExactly(a: Finished, b: Finished)
    ensures (forall steps :: Recorded(Recorded(steps, a), b) == Recorded(Recorded(steps, b), a)) <==> Compatible(a, b)
  {
    if Compatible(a, b) {
      forall steps
        ensures Recorded(Recorded(steps, a), b) == Recorded(Recorded(steps, b), a)
      {
        RecordedCommutes(steps, a, b);
      }
    } else {
      OrderShows(a, b);
    }
  }

  /** One at a time, a member moves before the compatible ones that finished earlier. */
  lemma {:induction false} MoveToFront(steps: Steps, fs: seq<Finished>, k: nat)
    requires k < |fs| && forall i :: 0 <= i < k ==> Compatible(fs[i], fs[k])
    ensures RecordedAll(steps, fs) == RecordedAll(Recorded(steps, fs[k]), fs[..k] + fs[k + 1..])
    decreases |fs|
  {
    if k == 0 {
      assert fs[..0] + fs[1..] == fs[1..];
    } else {
      var after := fs[..k] + fs[k + 1..];
      MoveToFront(Recorded(steps, fs[0]), fs[1..], k - 1);
      RecordedCommutes(steps, fs[0], fs[k]);
      assert after[0] == fs[0] && after[1..] == fs[1..][..k - 1] + fs[1..][k..];
      assert fs[1..][k - 1] == fs[k];
    }
  }

  ghost predicate AllCompatible(fs: seq<Finished>) {
    forall a, b :: a in fs && b in fs ==> Compatible(a, b)
  }

  /** Whatever the completion order of compatible members, the record is the same. */
  lemma {:induction false} CompletionOrderDoesNotMatter(steps: Steps, fs: seq<Finished>, gs: seq<Finished>)
    requires AllCompatible(fs) && multiset(fs) == multiset(gs)
    ensures RecordedAll(steps, fs) == RecordedAll(steps, gs)
    decreases |fs|
  {
    if fs == [] {
      assert |multiset(gs)| == 0;
    } else {
      assert forall f :: f in gs ==> f in multiset(gs) && f in multiset(fs) && f in fs;
      assert fs[0] in multiset(fs) && fs[0] in multiset(gs);
      var k :| 0 <= k < |gs| && gs[k] == fs[0];
      MoveToFront(steps, gs, k);
      SameWithoutOne(fs, gs, k);
      CompletionOrderDoesNotMatter(Recorded(steps, fs[0]), fs[1..], gs[..k] + gs[k + 1..]);
    }
  }

  lemma SameWithoutOne(fs: seq<Finished>, gs: seq<Finished>, k: nat)
    requires fs != [] && k < |gs| && gs[k] == fs[0] && multiset(fs) == multiset(gs)
    ensures multiset(fs[1..]) == multiset(gs[..k] + gs[k + 1..])
  {
    assert fs == [fs[0]] + fs[1..];
    assert gs == gs[..k] + [gs[k]] + gs[k + 1..];
    assert multiset(gs) == multiset(gs[..k]) + multiset{gs[k]} + multiset(gs[k + 1..]);
    assert multiset(fs[1..]) == multiset(fs) - multiset{fs[0]};
    assert multiset(gs[..k] + gs[k + 1..]) == multiset(gs) - multiset{gs[k]};
  }

  /** Whichever of a stage's members get to record a result, and in whatever order they do, the
      record is the same. */
  ghost predicate OrderFree(fs: seq<Finished>) {
    forall steps: Steps, xs: seq<Finished>, ys: seq<Finished> :: multiset(xs) <= multiset(fs) && multiset(xs) == multiset(ys) ==>
      RecordedAll(steps, xs) == RecordedAll(steps, ys)
  }

  lemma PartIsCompatible(xs: seq<Finished>, fs: seq<Finished>)
    requires AllCompatible(fs) && multiset(xs) <= multiset(fs)
    ensures AllCompatible(xs)
  {
    forall f | f in xs
      ensures f in fs
    {
      assert f in multiset(xs);
      assert f in multiset(fs);
    }
  }

  lemma RecordedPair(steps: Steps, a: Finished, b: Finished)
    ensures RecordedAll(steps, [a, b]) == Recorded(Recorded(steps, a), b)
  {
    assert [a, b][1..] == [b] && [b][1..] == [];
    assert RecordedAll(Recorded(steps, a), [b]) == RecordedAll(Recorded(Recorded(steps, a), b), []);
  }

  /** The record of a stage is free of the completion order if and only if its members are pairwise
      compatible. */
  lemma CompletionOrderExact(fs: seq<Finished>)
    ensures OrderFree(fs) <==> AllCompatible(fs)
  {
    if AllCompatible(fs) {
      forall steps: Steps, xs: seq<Finished>, ys: seq<Finished> | multiset(xs) <= multiset(fs) && multiset(xs) == multiset(ys)
        ensures RecordedAll(steps, xs) == RecordedAll(steps, ys)
      {
        PartIsCompatible(xs, fs);
        CompletionOrderDoesNotMatter(steps, xs, ys);
      }
    } else {
      var a, b :| a in fs && b in fs && !Compatible(a, b);
      OrderShows(a, b);
      assert a in multiset(fs) && b in multiset(fs) && a != b;
      assert multiset([a, b]) == multiset{a, b} == multiset([b, a]) && multiset{a, b} <= multiset(fs);
      RecordedPair(map[], a, b);
      RecordedPair(map[], b, a);
    }
  }

  /** Using one name both plainly and in a matrix makes the order show. */
  lemma MixedUseDependsOnOrder(name: string, k: string, x: string, y: string, key: string)
    requires key != ""
    ensures var plain, combo := Finished(name, "", map[k := x], None), Finished(name, key, map[k := y], None);
            RecordedAll(map[], [plain, combo]) != RecordedAll(map[], [combo, plain])
  {
    var plain, combo := Finished(name, "", map[k := x], None), Finished(name, key, map[k := y], None);
    assert k in combo.outputs;
    OrderShows(plain, combo);
    RecordedPair(map[], plain, combo);
    RecordedPair(map[], combo, plain);
  }
}

/** The same on the heap: a Go map is an object, a snapshot shares the inner ones, and no snapshot
    ever changes. */
module StepContext {
  import opened Common
  import opened StepValues

  /** map[string]string, as the text of each combination. */
  class TextMap {
    var texts: map<string, string>

    constructor (texts: map<string, string>)
      ensures this.texts == texts
    {
      this.texts := texts;
    }
  }

  datatype Cell = Plain(text: string) | Combos(texts: TextMap)

  /** map[string]any, as the outputs of a step. */
  class CellMap {
    var cells: map<string, Cell>

    constructor (cells: map<string, Cell>)
      ensures this.cells == cells
    {
      this.cells := cells;
    }
  }

  datatype StepData = StepData(outputs: CellMap?, child: Option<Cell>)

  /** map[string]StepData. */
  class StepMap {
    var steps: map<string, StepData>

    constructor (steps: map<string, StepData>)
      ensures this.steps == steps
    {
      this.steps := steps;
    }
  }

  // What a reader sees, through every level of maps.

  ghost function CellValue(c: Cell): Value
    reads *
  {
    match c
    case Plain(text) => Text(text)
    case Combos(texts) => PerCombo(texts.texts)
  }

  ghost function CellValues(cells: map<string, Cell>): map<string, Value>
    reads *
  {
    map k | k in cells :: CellValue(cells[k])
  }

  ghost function DataValue(d: StepData): Step
    reads *
  {
    Step(if d.outputs == null then map[] else CellValues(d.outputs.cells),
         if d.child.Some? then Some(CellValue(d.child.value)) else None)
  }

  ghost function View(steps: map<string, StepData>): Steps
    reads *
  {
    map name | name in steps :: DataValue(steps[name])
  }

  /** If no inner map that existed has been written, whatever could be seen through a map still is. */
  twostate lemma DataKept(d: StepData)
    requires forall c: CellMap {:trigger c.cells} :: old(allocated(c)) ==> c.cells == old(c.cells)
    requires forall t: TextMap {:trigger t.texts} :: old(allocated(t)) ==> t.texts == old(t.texts)
    ensures DataValue(d) == old(DataValue(d))
  {
    if d.outputs != null {
      assert CellValues(d.outputs.cells) == old(CellValues(d.outputs.cells));
    }
  }

  twostate lemma ViewKept(steps: map<string, StepData>)
    requires forall c: CellMap {:trigger c.cells} :: old(allocated(c)) ==> c.cells == old(c.cells)
    requires forall t: TextMap {:trigger t.texts} :: old(allocated(t)) ==> t.texts == old(t.texts)
    ensures View(steps) == old(View(steps))
  {
    forall name | name in steps
      ensures DataValue(steps[name]) == old(DataValue(steps[name]))
    {
      DataKept(steps[name]);
    }
  }

  /** A new map of this cell's texts with one combination set. */
  method Merged(prev: Option<Cell>, key: string, text: string) returns (cell: Cell)
    ensures CellValue(cell) == old(WithCombo(if prev.Some? then Some(CellValue(prev.value)) else None, key, text))
  {
    var texts := if prev.Some? && prev.value.Combos? then prev.value.texts.texts[key := text] else map[key := text];
    var m := new TextMap(texts);
    cell := Combos(m);
  }

  twostate lemma CellsKept(cells: map<string, Cell>)
    requires forall t: TextMap {:trigger t.texts} :: old(allocated(t)) ==> t.texts == old(t.texts)
    ensures CellValues(cells) == old(CellValues(cells))
  {
  }

  /** One turn of ApplyStepOutputs' loop over a matrix member's outputs. */
  method MergeOne(before: map<string, Cell>, key: string, outputs: map<string, string>, k: string,
                  ghost values: map<string, Value>, ghost done: set<string>)
    returns (cells: map<string, Cell>)
    requires done <= outputs.Keys && k in outputs && k !in done
    requires CellValues(before) == OutputsMerged(values, key, outputs, done)
    ensures CellValues(cells) == OutputsMerged(values, key, outputs, done + {k})
  {
    var prev := if k in before then Some(before[k]) else None;
    ghost var seen := CellValues(before);
    assert k in before.Keys <==> k in seen.Keys;
    assert (if prev.Some? then Some(CellValue(prev.value)) else None) == Lookup(seen, k) == Lookup(values, k);
    var cell := Merged(prev, key, outputs[k]);
    CellsKept(before);
    cells := before[k := cell];
    assert CellValues(cells) == seen[k := CellValue(cell)];
    OneMoreOutput(values, key, outputs, done, k);
  }

  method MergeCells(before: map<string, Cell>, key: string, outputs: map<string, string>) returns (cells: map<string, Cell>)
    requires key != ""
    ensures CellValues(cells) == old(OutputsApplied(CellValues(before), key, outputs))
  {
    cells := before;
    ghost var values := CellValues(before);
    var left := outputs.Keys;
    while left != {}
      invariant left <= outputs.Keys
      invariant CellValues(cells) == OutputsMerged(values, key, outputs, outputs.Keys - left)
    {
      var k :| k in left;
      ghost var done := outputs.Keys - left;
      cells := MergeOne(cells, key, outputs, k, values, done);
      left := left - {k};
      assert outputs.Keys - left == done + {k};
    }
  }

  /** ApplyStepOutputs and ApplyChildRunID on the data of one step: every map it needs is new. */
  method Applied(d: StepData, f: Finished) returns (r: StepData)
    ensures DataValue(r) == old(StepApplied(DataValue(d), f))
  {
    if f.key == "" {
      var plain := new CellMap(map k | k in f.outputs :: Plain(f.outputs[k]));
      assert CellValues(plain.cells) == AsTexts(f.outputs);
      return StepData(plain, if f.child.Some? then Some(Plain(f.child.value)) else None);
    }
    var cells := MergeCells(if d.outputs == null then map[] else d.outputs.cells, f.key, f.outputs);
    assert CellValues(cells) == old(StepApplied(DataValue(d), f).outputs);
    label L:
    var child := d.child;
    if f.child.Some? {
      var cell := Merged(d.child, f.key, f.child.value);
      child := Some(cell);
    }
    var o := new CellMap(cells);
    CellsKept@L(cells);
    r := StepData(o, child);
  }

  /** safeStepCtx: the live map, updated in place or replaced, under a lock. */
  class SafeStepCtx {
    var live: StepMap

    constructor ()
      ensures fresh(live) && live.steps == map[]
    {
      live := new StepMap(map[]);
    }

    /** A snapshot: a new outer map that shares every inner one. */
    method Snapshot() returns (s: StepMap)
      ensures fresh(s) && s.steps == live.steps
    {
      s := new StepMap(live.steps);
    }

    /** setStep, setStepMatrixOutputs and setCallStepResult. Of the maps that existed before, only
        the live outer one is ever written. */
    method Record(f: Finished)
      modifies this, live
      ensures View(live.steps) == Recorded(old(View(live.steps)), f)
      ensures live == old(live) || fresh(live)
    {
      var d := if f.name in live.steps then live.steps[f.name] else StepData(null, None);
      assert DataValue(d) == StepOf(View(live.steps), f.name);
      var r := Applied(d, f);
      var steps := live.steps[f.name := r];
      ViewKept(old(live.steps));
      assert View(steps) == View(live.steps)[f.name := DataValue(r)];
      label L:
      if f.key == "" && f.child.None? {
        live.steps := steps;
      } else {
        live := new StepMap(steps);
      }
      ViewKept@L(steps);
    }
  }

  /** No snapshot ever changes after it is taken, whatever finishes afterwards, and the live record
      is what recording the members in that order gives. */
  method SnapshotsAreStable(ctx: SafeStepCtx, fs: seq<Finished>) returns (s: StepMap)
    modifies ctx, ctx.live
    ensures View(s.steps) == old(View(ctx.live.steps))
    ensures View(ctx.live.steps) == RecordedAll(old(View(ctx.live.steps)), fs)
  {
    s := ctx.Snapshot();
    ViewKept(s.steps);
    for i := 0 to |fs|
      invariant ctx.live == old(ctx.live) || fresh(ctx.live)
      invariant ctx.live != s
      invariant View(s.steps) == old(View(ctx.live.steps))
      invariant RecordedAll(View(ctx.live.steps), fs[i..]) == RecordedAll(old(View(ctx.live.steps)), fs)
    {
      label L:
      ctx.Record(fs[i]);
      ViewKept@L(s.steps);
      assert fs[i..][1..] == fs[i + 1..];
    }
  }
}
