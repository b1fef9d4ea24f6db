/** `format_extra_params` of `django_splint.utils.aws.function.logging`: the
    decorator on every level method of the Lambda `Logger` that reshapes the
    caller's `extra` and keyword arguments into a fixed four-key `extra`. */
module Logging {
  import opened Py

  /** The `extra` the wrapped log method receives, one field per key:
      `_module`, `_class`, `_method` and `data`. */
  datatype Extra = Extra(moduleName: Value, className: Value, methodName: Value, data: map<string, Value>)

  /** The call the decorator makes to the wrapped method. */
  datatype LogCall = LogCall(msg: Value, args: seq<Value>, stacklevel: int, extra: Extra)

  /** The keys lifted out of the merged extra. */
  const Reserved: set<string> := {"module", "clazz", "method"}

  /** `stacklevel`'s default. */
  const DefaultStacklevel: int := 4

  /** `{**(extra or {}), **kwargs}`: the caller's `extra` overlaid with the
      other keyword arguments. */
  function Merged(extra: Option<map<string, Value>>, kwargs: map<string, Value>): (m: map<string, Value>)
    ensures m.Keys == kwargs.Keys + (if extra.Some? then extra.value.Keys else {})
    ensures forall k :: k in kwargs ==> m[k] == kwargs[k]
    ensures forall k :: k in m && k !in kwargs ==> extra.Some? && m[k] == extra.value[k]
  {
    (if extra.Some? then extra.value else map[]) + kwargs
  }

  /** `merged.pop(key, default)`'s answer. */
  function PopOr(m: map<string, Value>, key: string, default: string): Value {
    if key in m then m[key] else Str(default)
  }

  /** The call `wrapper` forwards: message and positional arguments as given,
      `stacklevel` defaulting to 4, and the merged extra split into the three
      reserved entries (with their `*_undefined` defaults) and the rest. */
  function FormatCall(msg: Value, args: seq<Value>, stacklevel: Option<int>,
                      extra: Option<map<string, Value>>, kwargs: map<string, Value>): (c: LogCall)
    ensures c.msg == msg && c.args == args
    ensures c.stacklevel == (if stacklevel.Some? then stacklevel.value else 4)
    ensures c.extra.data.Keys == Merged(extra, kwargs).Keys - Reserved
    ensures forall k :: k in c.extra.data ==> c.extra.data[k] == Merged(extra, kwargs)[k]
    ensures "module" !in Merged(extra, kwargs) ==> c.extra.moduleName == Str("module_undefined")
    ensures "clazz" !in Merged(extra, kwargs) ==> c.extra.className == Str("class_undefined")
    ensures "method" !in Merged(extra, kwargs) ==> c.extra.methodName == Str("method_undefined")
  {
    var merged := Merged(extra, kwargs);
    LogCall(msg, args, if stacklevel.Some? then stacklevel.value else DefaultStacklevel,
      Extra(PopOr(merged, "module", "module_undefined"),
            PopOr(merged, "clazz", "class_undefined"),
            PopOr(merged, "method", "method_undefined"),
            merged - Reserved))
  }

  /** The decorated method: the wrapped function (`func`, applied to the
      reshaped call) answers, and its result is returned as it is. */
  function Wrapper<R>(func: LogCall -> R, msg: Value, args: seq<Value>, stacklevel: Option<int>,
                      extra: Option<map<string, Value>>, kwargs: map<string, Value>): R
  {
    func(FormatCall(msg, args, stacklevel, extra, kwargs))
  }

  /** Nothing is lost: the reserved slots and `data` together give back the
      merged extra, and a keyword argument always beats the same key in `extra`. */
  lemma FormatCallLossless(msg: Value, args: seq<Value>, stacklevel: Option<int>,
                           extra: Option<map<string, Value>>, kwargs: map<string, Value>)
    ensures var c := FormatCall(msg, args, stacklevel, extra, kwargs);
      && ("module" in kwargs ==> c.extra.moduleName == kwargs["module"])
      && ("clazz" in kwargs ==> c.extra.className == kwargs["clazz"])
      && ("method" in kwargs ==> c.extra.methodName == kwargs["method"])
      && (forall k :: k in kwargs && k !in Reserved ==> k in c.extra.data && c.extra.data[k] == kwargs[k])
      && c.extra.data + Present(c.extra, Merged(extra, kwargs).Keys) == Merged(extra, kwargs)
  {
    var c := FormatCall(msg, args, stacklevel, extra, kwargs);
    var m := Merged(extra, kwargs);
    var back := c.extra.data + Present(c.extra, m.Keys);
    assert back.Keys == m.Keys;
    forall k | k in m ensures back[k] == m[k] {
    }
  }

  /** The reserved entries of an `Extra`, for the keys among `keys`. */
  function Present(e: Extra, keys: set<string>): (p: map<string, Value>)
    ensures p.Keys == keys * Reserved
  {
    var p0: map<string, Value> := map[];
    var p1 := if "module" in keys then p0["module" := e.moduleName] else p0;
    var p2 := if "clazz" in keys then p1["clazz" := e.className] else p1;
    if "method" in keys then p2["method" := e.methodName] else p2
  }

  /** Without `extra` or keyword arguments the call carries the three
      defaults and an empty `data`. */
  lemma FormatCallDefaults(msg: Value, args: seq<Value>)
    ensures FormatCall(msg, args, None, None, map[]) ==
      LogCall(msg, args, 4, Extra(Str("module_undefined"), Str("class_undefined"), Str("method_undefined"), map[]))
  {
  }
}
