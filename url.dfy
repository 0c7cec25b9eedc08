/**
  Endpoint addresses as the router sees them: the authority (host and port)
  and the query parameters. The keys of a condition are resolved against
  such a record.
 */
module Urls {
  import opened Wrappers

  /** An endpoint address, already parsed. */
  datatype Url = Url(host: string, port: string, params: map<string, string>)

  /** The prefix of a parameter that supplies the default for another one. */
  const DefaultPrefix: string := "default."

  /** The value of a parameter, or "" when it is absent. */
  function Param(url: Url, key: string): (v: string)
    ensures key in url.params ==> v == url.params[key]
    ensures key !in url.params ==> v == ""
  {
    if key in url.params then url.params[key] else ""
  }

  /** The keys that name the invoked method rather than a parameter. */
  predicate MethodKey(key: string) {
    key == "method" || key == "methods"
  }

  /** The value a condition key stands for in url. `host` and `port` read the
      authority. `method`/`methods` read the invoked method's name when one is
      given (the When side of a rule). Every other key reads the parameter
      of that name, falling back to the `default.`-prefixed parameter when
      it is empty or absent. */
  function Resolve(key: string, url: Url, methodName: Option<string>): (v: string)
  {
    if methodName.Some? && MethodKey(key) then methodName.value
    else if key == "host" then url.host
    else if key == "port" then url.port
    else if Param(url, key) != "" then Param(url, key)
    else Param(url, DefaultPrefix + key)
  }

  /** The value a `$key` placeholder stands for in url: the authority for
      `host` and `port`, the parameter itself (no default) otherwise. */
  function RawParam(url: Url, key: string): (v: string)
  {
    if key == "host" then url.host
    else if key == "port" then url.port
    else Param(url, key)
  }

  // ---- Lemmas ----

  /** With the method name given, both method keys read it. */
  lemma ResolveMethod(key: string, url: Url, name: string)
    requires MethodKey(key)
    ensures Resolve(key, url, Some(name)) == name
  {
  }

  /** An ordinary key reads its own parameter when that one is set. */
  lemma ResolveOwn(key: string, url: Url, methodName: Option<string>)
    requires !MethodKey(key) && key != "host" && key != "port"
    requires key in url.params && url.params[key] != ""
    ensures Resolve(key, url, methodName) == url.params[key]
  {
  }

  /** An ordinary key without a parameter of its own reads the default. */
  lemma ResolveDefault(key: string, url: Url, methodName: Option<string>)
    requires !MethodKey(key) && key != "host" && key != "port"
    requires key !in url.params && DefaultPrefix + key in url.params
    ensures Resolve(key, url, methodName) == url.params[DefaultPrefix + key]
  {
  }

  /** An ordinary key with neither parameter resolves to the empty string. */
  lemma ResolveAbsent(key: string, url: Url, methodName: Option<string>)
    requires !MethodKey(key) && key != "host" && key != "port"
    requires key !in url.params && DefaultPrefix + key !in url.params
    ensures Resolve(key, url, methodName) == ""
  {
  }

  /** Only a key's own parameter and its default are consulted: setting any
      other parameter leaves the resolved value unchanged. */
  lemma ResolveLocal(key: string, url: Url, methodName: Option<string>, other: string, v: string)
    requires other != key && other != DefaultPrefix + key
    ensures Resolve(key, url.(params := url.params[other := v]), methodName) == Resolve(key, url, methodName)
  {
  }
}
