/**
 * The binding wrapper of `src/js/bind.js`: a flat record kept in step with
 * the named controls of a form, with labels found by id, an optional
 * debounce on text input, and a change callback.
 *
 * The DOM is replaced by maps: `controls` holds the form's named controls,
 * `labels` the text of the elements that have an id, `pending` whether a
 * debounce timer is scheduled for a field, and `calls` the calls made to the
 * change callback, in order. Timers fire through an explicit event.
 */
module Bind {
  import opened JsValues

  /** How `bind` treats a named form control. */
  datatype ControlKind =
    | Checkbox   // <input type="checkbox">
    | TextLike   // any other <input>, or a <textarea>
    | Select     // <select>
    | Unhandled  // any other named form element: no initial value, no listener

  datatype Control = Control(kind: ControlKind, value: string, checked: bool, validity: string)

  /** The listener `bind` registers on a control. */
  datatype Listener = OnInput | OnCheck | OnSelect

  function ListenerFor(kind: ControlKind): Option<Listener>
  {
    match kind
    case Checkbox => Some(OnCheck)
    case TextLike => Some(OnInput)
    case Select => Some(OnSelect)
    case Unhandled => None
  }

  /** A control after `bind` has shown the field value `v` on it. */
  function Shown(c: Control, v: string): Control
  {
    match c.kind
    case Checkbox => c.(checked := c.value == v)
    case TextLike => c.(value := v)
    case Select => c.(value := v)
    case Unhandled => c
  }

  /** The value that a control's listener writes into the record. */
  function Committed(c: Control): string
  {
    if c.kind == Checkbox then (if c.checked then c.value else "") else c.value
  }

  /**
   * Showing a value on a control and reading it back with the listener's
   * rule gives the value again, except on a checkbox whose own value is a
   * different string: that one is left unchecked and reads back as ''.
   */
  lemma ShownThenCommitted(c: Control, v: string)
    requires c.kind != Unhandled
    ensures Committed(Shown(c, v)) == (if c.kind == Checkbox && c.value != v then "" else v)
    ensures Shown(c, v).kind == c.kind && Shown(c, v).validity == c.validity
  {
  }

  class Binder {
    /** The bound object. */
    var obj: map<string, string>
    /** The form's named controls; empty when there is no form. */
    var controls: map<string, Control>
    /** The text content of the document's elements, by id. */
    var labels: map<string, string>
    /** `durationHndl`: whether a debounce timer is scheduled for a field. */
    var pending: map<string, bool>
    /** The calls made to the change callback, oldest first. */
    var calls: seq<(string, string)>

    /** The listener registered at attach time, by field. */
    const listeners: map<string, Listener>
    const duration: nat
    const idprefix: string
    const asValidator: bool
    const hasCallback: bool

    ghost predicate Valid()
      reads this
    {
      && (forall k :: k in listeners ==> k in controls && ListenerFor(controls[k].kind) == Some(listeners[k]))
      && (forall k :: k in pending && pending[k] ==> k in listeners && listeners[k] == OnInput && duration != 0)
    }

    /** The callback log after the change callback is called with `key` and `value`, when one was given. */
    function Notified(log: seq<(string, string)>, key: string, value: string): seq<(string, string)>
    {
      if hasCallback then log + [(key, value)] else log
    }

    /**
     * Attaching: every field of `obj` that has a same-named control
     * shows its value there and gets the listener for the control's kind.
     */
    constructor Attach(obj: map<string, string>, controls: map<string, Control>, labels: map<string, string>,
                       duration: nat, idprefix: string, asValidator: bool, hasCallback: bool)
      ensures Valid()
      ensures this.obj == obj && this.labels == labels && pending == map[] && calls == []
      ensures this.duration == duration && this.idprefix == idprefix
      ensures this.asValidator == asValidator && this.hasCallback == hasCallback
      ensures this.controls.Keys == controls.Keys
      ensures forall k :: k in controls ==>
                this.controls[k] == if k in obj then Shown(controls[k], obj[k]) else controls[k]
      ensures forall k :: k in listeners <==> k in obj && k in controls && ListenerFor(controls[k].kind).Some?
    {
      var shown := controls;
      var attached: map<string, Listener> := map[];
      var todo := obj.Keys;
      while todo != {}
        invariant todo <= obj.Keys
        invariant shown.Keys == controls.Keys
        invariant forall k :: k in controls ==>
                    shown[k] == if k in obj && k !in todo then Shown(controls[k], obj[k]) else controls[k]
        invariant forall k :: k in attached <==>
                    k in obj && k !in todo && k in controls && ListenerFor(controls[k].kind).Some?
        invariant forall k :: k in attached ==> ListenerFor(controls[k].kind) == Some(attached[k])
        decreases todo
      {
        var key :| key in todo;
        if key in controls {
          var el := controls[key];
          match el.kind {
            case Checkbox =>
              shown := shown[key := el.(checked := el.value == obj[key])];
              attached := attached[key := OnCheck];
            case TextLike =>
              shown := shown[key := el.(value := obj[key])];
              attached := attached[key := OnInput];
            case Select =>
              shown := shown[key := el.(value := obj[key])];
              attached := attached[key := OnSelect];
            case Unhandled =>
          }
        }
        todo := todo - {key};
      }
      this.obj := obj;
      this.controls := shown;
      this.labels := labels;
      this.pending := map[];
      this.calls := [];
      this.listeners := attached;
      this.duration := duration;
      this.idprefix := idprefix;
      this.asValidator := asValidator;
      this.hasCallback := hasCallback;
    }

    /** A UI-originated write goes to the raw object, not through the proxy. */
    method SetValue(key: string, value: string)
      modifies this`obj, this`calls
      ensures obj == old(obj)[key := value]
      ensures calls == Notified(old(calls), key, value)
    {
      obj := obj[key := value];
      if hasCallback {
        calls := calls + [(key, value)];
      }
    }

    /**
     * The proxy's `set` trap: cancel the field's pending timer, store the
     * value, copy it to the label `idprefix + p` and to control `p` (as its
     * custom-validity message in validator mode), then call the callback once.
     */
    method Write(p: string, newValue: string) returns (ok: bool)
      requires Valid()
      modifies this
      ensures Valid() && ok
      ensures p in old(pending) ==> pending == old(pending)[p := false]
      ensures p !in old(pending) ==> pending == old(pending)
      ensures obj == old(obj)[p := newValue]
      ensures labels == if idprefix != "" && idprefix + p in old(labels)
                        then old(labels)[idprefix + p := newValue] else old(labels)
      ensures controls == if p !in old(controls) then old(controls)
                          else if asValidator then old(controls)[p := old(controls)[p].(validity := newValue)]
                          else old(controls)[p := old(controls)[p].(value := newValue)]
      ensures calls == Notified(old(calls), p, newValue)
    {
      var timers := pending;
      if p in timers {
        // the field's debounce timer is cancelled
        timers := timers[p := false];
      }
      var texts := labels;
      if idprefix != "" && idprefix + p in texts {
        texts := texts[idprefix + p := newValue];
      }
      var sinks := controls;
      if p in sinks {
        var el := sinks[p];
        if asValidator {
          sinks := sinks[p := el.(validity := newValue)];
        } else {
          sinks := sinks[p := el.(value := newValue)];
        }
      }
      var log := calls;
      if hasCallback {
        log := log + [(p, newValue)];
      }
      pending, obj, labels, controls, calls := timers, obj[p := newValue], texts, sinks, log;
      ok := true;
    }

    /**
     * A keystroke in text control `key` leaving `text` in it. With a
     * duration the field's timer is (re)started and nothing is written yet;
     * without one the value is written at once.
     */
    method Input(key: string, text: string)
      requires Valid()
      modifies this
      ensures Valid()
      ensures labels == old(labels)
      ensures key in old(controls) && old(controls)[key].kind == TextLike ==>
                controls == old(controls)[key := old(controls)[key].(value := text)]
      ensures !(key in old(controls) && old(controls)[key].kind == TextLike) ==> controls == old(controls)
      ensures key in listeners && listeners[key] == OnInput && duration != 0 ==>
                pending == old(pending)[key := true] && obj == old(obj) && calls == old(calls)
      ensures key in listeners && listeners[key] == OnInput && duration == 0 ==>
                pending == old(pending) && obj == old(obj)[key := text] && calls == Notified(old(calls), key, text)
      ensures !(key in listeners && listeners[key] == OnInput) ==>
                pending == old(pending) && obj == old(obj) && calls == old(calls)
    {
      if key in controls && controls[key].kind == TextLike {
        controls := controls[key := controls[key].(value := text)];
        if key in listeners {
          if duration != 0 {
            // the previous timer is cancelled and a new one scheduled
            pending := pending[key := true];
          } else {
            SetValue(key, controls[key].value);
          }
        }
      }
    }

    /** The debounce timer of `key` fires: the control's value at this moment is written. */
    method Fire(key: string)
      requires Valid()
      modifies this
      ensures Valid()
      ensures controls == old(controls) && labels == old(labels)
      ensures key in old(pending) && old(pending)[key] ==>
                && pending == old(pending)[key := false]
                && obj == old(obj)[key := old(controls)[key].value]
                && calls == Notified(old(calls), key, old(controls)[key].value)
      ensures !(key in old(pending) && old(pending)[key]) ==>
                pending == old(pending) && obj == old(obj) && calls == old(calls)
    {
      if key in pending && pending[key] {
        pending := pending[key := false];
        SetValue(key, controls[key].value);
      }
    }

    /** Checkbox `key` is toggled to `checked`: its value is written if checked, else ''. */
    method Toggle(key: string, checked: bool)
      requires Valid()
      modifies this
      ensures Valid()
      ensures pending == old(pending) && labels == old(labels)
      ensures key in old(controls) && old(controls)[key].kind == Checkbox ==>
                controls == old(controls)[key := old(controls)[key].(checked := checked)]
      ensures !(key in old(controls) && old(controls)[key].kind == Checkbox) ==> controls == old(controls)
      ensures key in listeners && listeners[key] == OnCheck ==>
                var written := if checked then old(controls)[key].value else "";
                obj == old(obj)[key := written] && calls == Notified(old(calls), key, written)
      ensures !(key in listeners && listeners[key] == OnCheck) ==> obj == old(obj) && calls == old(calls)
    {
      if key in controls && controls[key].kind == Checkbox {
        controls := controls[key := controls[key].(checked := checked)];
        if key in listeners {
          SetValue(key, Committed(controls[key]));
        }
      }
    }

    /** Option `choice` is selected in select control `key`: it is written at once. */
    method Choose(key: string, choice: string)
      requires Valid()
      modifies this
      ensures Valid()
      ensures pending == old(pending) && labels == old(labels)
      ensures key in old(controls) && old(controls)[key].kind == Select ==>
                controls == old(controls)[key := old(controls)[key].(value := choice)]
      ensures !(key in old(controls) && old(controls)[key].kind == Select) ==> controls == old(controls)
      ensures key in listeners && listeners[key] == OnSelect ==>
                obj == old(obj)[key := choice] && calls == Notified(old(calls), key, choice)
      ensures !(key in listeners && listeners[key] == OnSelect) ==> obj == old(obj) && calls == old(calls)
    {
      if key in controls && controls[key].kind == Select {
        controls := controls[key := controls[key].(value := choice)];
        if key in listeners {
          SetValue(key, controls[key].value);
        }
      }
    }
  }

  // ---------------------------------------------------------------------
  // Event sequences
  // ---------------------------------------------------------------------

  /**
   * Any number of keystrokes in a debounced text field write nothing; when
   * the timer then fires, exactly one write happens, with the last text.
   * `before` and `typed` are the record and the callback log just before
   * the timer fires.
   */
  method DebounceCoalesces(b: Binder, key: string, texts: seq<string>)
    returns (before: map<string, string>, typed: seq<(string, string)>)
    requires b.Valid() && key in b.listeners && b.listeners[key] == OnInput && b.duration != 0
    requires |texts| >= 1
    modifies b
    ensures b.Valid()
    ensures before == old(b.obj) && typed == old(b.calls)
    ensures b.obj == old(b.obj)[key := texts[|texts| - 1]]
    ensures b.calls == b.Notified(old(b.calls), key, texts[|texts| - 1])
    ensures b.pending == old(b.pending)[key := false]
    ensures b.labels == old(b.labels)
    ensures b.controls == old(b.controls)[key := old(b.controls)[key].(value := texts[|texts| - 1])]
  {
    b.Input(key, texts[0]);
    var i := 1;
    while i < |texts|
      invariant 1 <= i <= |texts|
      invariant b.Valid()
      invariant b.obj == old(b.obj) && b.calls == old(b.calls)
      invariant b.pending == old(b.pending)[key := true]
      invariant b.labels == old(b.labels)
      invariant b.controls == old(b.controls)[key := old(b.controls)[key].(value := texts[i - 1])]
      decreases |texts| - i
    {
      b.Input(key, texts[i]);
      i := i + 1;
    }
    before, typed := b.obj, b.calls;
    b.Fire(key);
  }

  /**
   * A programmatic write cancels the pending keystroke: the later timer
   * event writes nothing, and the typed text never reaches the object.
   */
  method WriteSupersedesTyping(key: string, typed: string, written: string)
    returns (value: string, calls: seq<(string, string)>)
    ensures value == written && calls == [(key, written)]
  {
    var b := new Binder.Attach(map[key := "init"], map[key := Control(TextLike, "", false, "")], map[],
                               300, "", false, true);
    b.Input(key, typed);
    var _ := b.Write(key, written);
    b.Fire(key);
    value := b.obj[key];
    calls := b.calls;
  }

  /**
   * A programmatic write reaches the label and the control once each and
   * calls the callback once; in validator mode the control keeps its value
   * and gets the written text as its custom-validity message.
   */
  method WriteReachesSinks(key: string, v: string, asValidator: bool)
    returns (labelText: string, control: Control, calls: seq<(string, string)>)
    ensures labelText == v && calls == [(key, v)]
    ensures asValidator ==> control.value == "old" && control.validity == v
    ensures !asValidator ==> control.value == v && control.validity == ""
  {
    var b := new Binder.Attach(map[key := "old"], map[key := Control(TextLike, "", false, "")],
                               map["out-" + key := ""], 0, "out-", asValidator, true);
    var _ := b.Write(key, v);
    labelText := b.labels["out-" + key];
    control := b.controls[key];
    calls := b.calls;
  }
}
