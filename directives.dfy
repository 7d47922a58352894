/**
  The `data-*` directive runtime registered as an Alpine plugin.  Each
  directive either installs an effect, which re-runs whenever its expression
  changes and writes one property of the element, or adds an event listener
  whose cleanup removes it again.

  Evaluating an expression is the framework's job: the value an evaluation
  produced is a parameter of the effect or handler that receives it.
*/
module Directives {
  import opened GoStrings

  /** The JavaScript values an expression can produce */
  datatype JsValue =
    | Undefined
    | Null
    | Bool(b: bool)
    | Num(n: int)
    | NaN
    | Str(s: string)
    | Obj(entries: seq<(string, JsValue)>)
    | Func(name: string)

  /** JavaScript truthiness */
  predicate Truthy(v: JsValue) {
    match v
    case Undefined => false
    case Null => false
    case Bool(b) => b
    case Num(n) => n != 0
    case NaN => false
    case Str(s) => s != ""
    case Obj(_) => true
    case Func(_) => true
  }

  /** The string a property assignment stores for a value (String(v)) */
  function JsText(v: JsValue): string {
    match v
    case Undefined => "undefined"
    case Null => "null"
    case Bool(b) => if b then "true" else "false"
    case Num(n) => Itoa(n)
    case NaN => "NaN"
    case Str(s) => s
    case Obj(_) => "[object Object]"
    case Func(name) => name
  }

  /** The text `result || ''` assigns: a falsy result gives the empty string */
  function TextOrEmpty(v: JsValue): (r: string)
    ensures !Truthy(v) ==> r == ""
    ensures Truthy(v) ==> r == JsText(v)
    ensures v.Str? ==> r == v.s
  {
    if Truthy(v) then JsText(v) else ""
  }

  // ---------------------------------------------------------------------
  // Class tokens

  /** DOMTokenList's ASCII whitespace */
  predicate IsAsciiSpace(c: char) {
    c == ' ' || c == '\t' || c == '\n' || c == '\U{C}' || c == '\r'
  }

  /** A token classList.add/remove accepts: non-empty and without whitespace */
  predicate ValidToken(t: string) {
    t != [] && forall i :: 0 <= i < |t| ==> !IsAsciiSpace(t[i])
  }

  predicate Distinct(cs: seq<string>) {
    forall i, j :: 0 <= i < j < |cs| ==> cs[i] != cs[j]
  }

  /** classList.add: a present token stays where it is, a new one goes last */
  function AddClass(cs: seq<string>, t: string): (r: seq<string>)
    ensures t in r
    ensures forall c :: c in r <==> c in cs || c == t
    ensures Distinct(cs) ==> Distinct(r)
  {
    if t in cs then cs else cs + [t]
  }

  /** classList.remove */
  function RemoveClass(cs: seq<string>, t: string): (r: seq<string>)
    ensures t !in r
    ensures forall c :: c in r <==> c in cs && c != t
    ensures Distinct(cs) ==> Distinct(r)
  {
    if cs == [] then []
    else if cs[0] == t then RemoveClass(cs[1..], t)
    else
      var rest := RemoveClass(cs[1..], t);
      assert Distinct(cs) ==> Distinct(cs[1..]) && cs[0] !in cs[1..] by {
        if Distinct(cs) {
          forall i, j | 0 <= i < j < |cs[1..]| ensures cs[1..][i] != cs[1..][j] {
            assert cs[1..][i] == cs[i + 1] && cs[1..][j] == cs[j + 1];
          }
          forall j | 0 <= j < |cs[1..]| ensures cs[1..][j] != cs[0] {
            assert cs[1..][j] == cs[j + 1];
          }
        }
      }
      [cs[0]] + rest
  }

  /** One key of a class object: add the class if its value is truthy, else remove it */
  function ToggleClass(cs: seq<string>, key: string, v: JsValue): seq<string> {
    if Truthy(v) then AddClass(cs, key) else RemoveClass(cs, key)
  }

  /**
    The class object's keys in order; the first key classList refuses
    throws, so the keys after it are never applied and `done` is false.
  */
  function ApplyClassObject(cs: seq<string>, entries: seq<(string, JsValue)>): (r: (seq<string>, bool))
    ensures Distinct(cs) ==> Distinct(r.0)
    ensures r.1 <==> forall i :: 0 <= i < |entries| ==> ValidToken(entries[i].0)
    decreases entries
  {
    if entries == [] then (cs, true)
    else if !ValidToken(entries[0].0) then (cs, false)
    else ApplyClassObject(ToggleClass(cs, entries[0].0, entries[0].1), entries[1..])
  }

  function Keys(entries: seq<(string, JsValue)>): set<string> {
    set i | 0 <= i < |entries| :: entries[i].0
  }

  /** The value of the last entry for key k, or Undefined */
  function ValueOf(entries: seq<(string, JsValue)>, k: string): JsValue {
    if entries == [] then Undefined
    else if entries[|entries| - 1].0 == k then entries[|entries| - 1].1
    else ValueOf(entries[..|entries| - 1], k)
  }

  /**
    A class object whose keys are all valid leaves each key's class present
    exactly when its value is truthy, and every other class as it was.
  */
  lemma {:induction false} ApplyClassObjectToggles(cs: seq<string>, entries: seq<(string, JsValue)>, c: string)
    requires forall i :: 0 <= i < |entries| ==> ValidToken(entries[i].0)
    ensures c in Keys(entries) ==> (c in ApplyClassObject(cs, entries).0 <==> Truthy(ValueOf(entries, c)))
    ensures c !in Keys(entries) ==> (c in ApplyClassObject(cs, entries).0 <==> c in cs)
    decreases |entries|
  {
    if entries != [] {
      var n := |entries| - 1;
      var init := entries[..n];
      ApplyClassObjectSnoc(cs, init, entries[n]);
      assert init + [entries[n]] == entries;
      ApplyClassObjectToggles(cs, init, c);
      assert Keys(entries) == Keys(init) + {entries[n].0} by {
        forall k | k in Keys(entries) ensures k in Keys(init) + {entries[n].0} {
          var i :| 0 <= i < |entries| && entries[i].0 == k;
          if i < n { assert init[i].0 == k; }
        }
        forall k | k in Keys(init) ensures k in Keys(entries) {
          var i :| 0 <= i < |init| && init[i].0 == k;
          assert entries[i].0 == k;
        }
      }
    }
  }

  lemma {:induction false} ApplyClassObjectSnoc(cs: seq<string>, init: seq<(string, JsValue)>, e: (string, JsValue))
    requires forall i :: 0 <= i < |init| ==> ValidToken(init[i].0)
    requires ValidToken(e.0)
    ensures ApplyClassObject(cs, init + [e]) == (ToggleClass(ApplyClassObject(cs, init).0, e.0, e.1), true)
    decreases |init|
  {
    if init == [] {
      assert [e][1..] == [];
    } else {
      assert (init + [e])[1..] == init[1..] + [e];
      ApplyClassObjectSnoc(ToggleClass(cs, init[0].0, init[0].1), init[1..], e);
    }
  }

  /** The tokens of a className string: whitespace-separated words, first occurrences only */
  function ClassNameTokens(s: string): (r: seq<string>)
    ensures Distinct(r)
    ensures forall i :: 0 <= i < |r| ==> ValidToken(r[i])
  {
    Dedup(AsciiWords(s))
  }

  function AsciiWordPrefix(s: string): (w: string)
    ensures w <= s
    ensures forall i :: 0 <= i < |w| ==> !IsAsciiSpace(w[i])
    ensures |w| < |s| ==> IsAsciiSpace(s[|w|])
  {
    if s == [] || IsAsciiSpace(s[0]) then [] else [s[0]] + AsciiWordPrefix(s[1..])
  }

  /** Maximal runs of non-whitespace characters */
  function AsciiWords(s: string): (r: seq<string>)
    ensures forall i :: 0 <= i < |r| ==> ValidToken(r[i])
    decreases |s|
  {
    if s == [] then []
    else if IsAsciiSpace(s[0]) then AsciiWords(s[1..])
    else
      var w := AsciiWordPrefix(s);
      [w] + AsciiWords(s[|w|..])
  }

  function Dedup(ws: seq<string>): (r: seq<string>)
    ensures Distinct(r)
    ensures forall w :: w in r <==> w in ws
    ensures (forall i :: 0 <= i < |ws| ==> ValidToken(ws[i])) ==> forall i :: 0 <= i < |r| ==> ValidToken(r[i])
  {
    if ws == [] then []
    else
      var last := ws[|ws| - 1];
      var r0 := Dedup(ws[..|ws| - 1]);
      assert forall w :: w in ws <==> w in ws[..|ws| - 1] || w == last by {
        assert ws == ws[..|ws| - 1] + [last];
      }
      if last in r0 then r0 else r0 + [last]
  }

  // ---------------------------------------------------------------------
  // Listeners

  datatype EventKind = Click | Submit | InputEvent

  datatype Handler =
    | Invoke(expression: string, prevent: bool)  // click, submit and their -prevent forms
    | ModelWrite(expression: string)             // the model directive's input handler

  datatype Listener = Listener(id: nat, event: EventKind, handler: Handler)

  function ListenerIds(ls: seq<Listener>): set<nat> {
    set i | 0 <= i < |ls| :: ls[i].id
  }

  /** removeEventListener for one registered handler */
  function RemoveListener(ls: seq<Listener>, id: nat): (r: seq<Listener>)
    ensures id !in ListenerIds(r)
    ensures forall l :: l in r <==> l in ls && l.id != id
  {
    if ls == [] then []
    else if ls[0].id == id then RemoveListener(ls[1..], id)
    else [ls[0]] + RemoveListener(ls[1..], id)
  }

  /** The cleanup of a listener removes exactly that listener */
  lemma {:induction false} CleanupUndoesInstall(ls: seq<Listener>, l: Listener)
    requires l.id !in ListenerIds(ls)
    ensures RemoveListener(ls + [l], l.id) == ls
    decreases |ls|
  {
    if ls == [] {
      assert [l][1..] == [];
    } else {
      assert (ls + [l])[1..] == ls[1..] + [l];
      assert ListenerIds(ls[1..]) <= ListenerIds(ls) by {
        forall k | k in ListenerIds(ls[1..]) ensures k in ListenerIds(ls) {
          var i :| 0 <= i < |ls[1..]| && ls[1..][i].id == k;
          assert ls[i + 1].id == k;
        }
      }
      assert ls[0].id in ListenerIds(ls);
      CleanupUndoesInstall(ls[1..], l);
    }
  }

  // ---------------------------------------------------------------------
  // Elements, events and component instances

  class Element {
    const isCheckbox: bool   // `el.type === 'checkbox'`
    var display: string      // style.display
    var textContent: string
    var classes: seq<string> // classList, in order
    var value: string
    var checked: bool
    var disabled: bool
    var required: bool
    var listeners: seq<Listener>
    var nextId: nat          // the source of fresh listener identities

    ghost predicate Valid()
      reads this
    {
      Distinct(classes) && forall i :: 0 <= i < |listeners| ==> listeners[i].id < nextId
    }

    constructor (checkbox: bool)
      ensures Valid()
      ensures isCheckbox == checkbox && classes == [] && listeners == []
      ensures display == "" && textContent == "" && value == "" && !checked && !disabled && !required
    {
      isCheckbox := checkbox;
      display := "";
      textContent := "";
      classes := [];
      value := "";
      checked := false;
      disabled := false;
      required := false;
      listeners := [];
      nextId := 0;
    }

    /** The `show` effect */
    method Show(result: JsValue)
      modifies this`display
      ensures display == if Truthy(result) then "" else "none"
    {
      display := if Truthy(result) then "" else "none";
    }

    /** The `text` effect */
    method Text(result: JsValue)
      modifies this`textContent
      ensures textContent == TextOrEmpty(result)
    {
      textContent := TextOrEmpty(result);
    }

    /** The `disabled` effect */
    method Disable(result: JsValue)
      modifies this`disabled
      ensures disabled == Truthy(result)
    {
      disabled := Truthy(result);
    }

    /** The `required` effect */
    method Require(result: JsValue)
      modifies this`required
      ensures required == Truthy(result)
    {
      required := Truthy(result);
    }

    /** The `model` effect: a checkbox takes `!!result`, any other input `result || ''` */
    method ModelEffect(result: JsValue)
      modifies this`checked, this`value
      ensures isCheckbox ==> checked == Truthy(result) && value == old(value)
      ensures !isCheckbox ==> value == TextOrEmpty(result) && checked == old(checked)
    {
      if isCheckbox {
        checked := Truthy(result);
      } else {
        value := TextOrEmpty(result);
      }
    }

    /**
      The `class` effect.  An object toggles its keys in order (null is an
      object too, and `Object.keys(null)` throws); a string replaces the
      whole class list; any other value is ignored.  `threw` reports the
      exception that stops the effect.
    */
    method ClassEffect(result: JsValue) returns (threw: bool)
      requires Valid()
      modifies this`classes
      ensures Valid()
      ensures result.Obj? ==> (classes, !threw) == ApplyClassObject(old(classes), result.entries)
      ensures result.Str? ==> classes == ClassNameTokens(result.s) && !threw
      ensures result.Null? ==> classes == old(classes) && threw
      ensures !result.Obj? && !result.Str? && !result.Null? ==> classes == old(classes) && !threw
    {
      threw := false;
      match result
      case Obj(entries) =>
        var i := 0;
        while i < |entries|
          invariant 0 <= i <= |entries|
          invariant Distinct(classes)
          invariant forall j :: 0 <= j < i ==> ValidToken(entries[j].0)
          invariant ApplyClassObject(classes, entries[i..]) == ApplyClassObject(old(classes), entries)
        {
          var key := entries[i].0;
          if !ValidToken(key) {
            threw := true;
            return;
          }
          assert entries[i..][1..] == entries[i + 1..];
          classes := ToggleClass(classes, key, entries[i].1);
          i := i + 1;
        }
      case Str(s) =>
        classes := ClassNameTokens(s);
      case Null =>
        threw := true;
      case _ =>
    }

    /**
      Adds the listener a `click`, `submit`, their `-prevent` forms or
      `model` install; the returned identity is the one its cleanup removes.
    */
    method AddListener(event: EventKind, handler: Handler) returns (id: nat)
      requires Valid()
      modifies this`listeners, this`nextId
      ensures Valid()
      ensures id !in ListenerIds(old(listeners))
      ensures listeners == old(listeners) + [Listener(id, event, handler)]
    {
      id := nextId;
      assert id !in ListenerIds(listeners);
      listeners := listeners + [Listener(id, event, handler)];
      nextId := nextId + 1;
    }

    /** The cleanup registered beside each listener */
    method RemoveListenerById(id: nat)
      requires Valid()
      modifies this`listeners
      ensures Valid()
      ensures listeners == RemoveListener(old(listeners), id)
    {
      listeners := RemoveListener(listeners, id);
    }
  }

  class Event {
    var defaultPrevented: bool

    constructor ()
      ensures !defaultPrevented
    {
      defaultPrevented := false;
    }
  }

  /** The component instance `Alpine.$data(el)` finds */
  class Component {
    var data: map<string, JsValue>

    constructor (initial: map<string, JsValue>)
      ensures data == initial
    {
      data := initial;
    }
  }

  /**
    The click/submit handler: the `-prevent` forms call preventDefault
    first; a non-empty expression is evaluated once (its value is
    `result`) and, if that value is a function, the function is called with
    the event.  `called` names the function invoked, if any.
  */
  method HandleInvoke(expression: string, prevent: bool, ev: Event, result: JsValue)
    returns (called: Option<string>)
    modifies ev
    ensures ev.defaultPrevented == (old(ev.defaultPrevented) || prevent)
    ensures called.Some? <==> expression != "" && result.Func?
    ensures called.Some? ==> called.value == result.name
  {
    if prevent {
      ev.defaultPrevented := true;
    }
    called := None;
    if expression != "" {
      if result.Func? {
        called := Some(result.name);
      }
    }
  }

  /** The value an input event carries: `checked` for a checkbox, `value` otherwise */
  function InputValue(target: Element): JsValue
    reads target
  {
    if target.isCheckbox then Bool(target.checked) else Str(target.value)
  }

  /**
    The model directive's input handler: the property named by the
    expression is written only when a component exists and the property is
    already defined on it.
  */
  method HandleModelInput(expression: string, target: Element, comp: Component?)
    modifies comp
    ensures comp != null && expression in old(comp.data) && old(comp.data)[expression] != Undefined
      ==> comp.data == old(comp.data)[expression := InputValue(target)]
    ensures comp != null && (expression !in old(comp.data) || old(comp.data)[expression] == Undefined)
      ==> comp.data == old(comp.data)
  {
    if comp != null && expression in comp.data && comp.data[expression] != Undefined {
      comp.data := comp.data[expression := InputValue(target)];
    }
  }
}
