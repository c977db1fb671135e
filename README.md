# Namecheap dynamic DNS client, modelled in Dafny

The client keeps a Namecheap host record pointing at the machine it runs on.
At startup it takes its configuration from `namecheap.config`. When that file
is missing or unusable, it prompts for the four values at the console. It then
runs one task at a fixed rate. The task asks an IP service for the current
public address and sends that address to Namecheap's dynamic DNS update URL.

The model has five modules:

- `Wrappers`: `Option` and `Result`.
- `Config`: the class `NamecheapConfig`. Its four fields can be null and are
  updated in place by the setters. Its constructor rejects the first null
  argument, checking host, domain, password and refresh rate in that order.
  Java's `Integer` is the newtype `int32`.
- `UpdateUrl`: `getSetIpAddressUrl` is written as a method that appends to a
  builder. It is specified by the function `SetIpAddressUrl`. A parser,
  `ParseSetIpAddressUrl`, is its partner: it recovers the values from a
  built URL. Java's `StringBuilder.append` writes a null string as `null`,
  and `AppendedText` models that.
- `Prompt`: the console prompts `getField` and `getIntegerField`.
  - Standard input is modelled as the finite sequence of what successive
    calls of `readLine` return. Each entry is a line, or None for null.
  - A null read inside the sequence stands for an end of input that further
    input follows. For example, after Ctrl-D at a console, the fresh reader
    of the next prompt can read new lines.
  - After the last entry the stream stays at its end for good, as a
    redirected file does.
  - Each prompt is a specification function together with a loop method
    proved equal to it.
  - When the sequence runs out while a prompt is still asking, the result is
    `Exhausted`. In Java, `readLine` then keeps returning null, and the
    prompt recurses until the stack overflows.
  - `Integer.parseInt` is a parameter of the model. A null answer parses
    to 0, as `parseInt` throws `NumberFormatException` for null.
- `Client`: how the client chooses its configuration at startup, and one run
  of the scheduled task.
  - A null host, domain or password entered at the console makes the
    constructor throw. That exception is not caught, so startup fails.
  - Each HTTP exchange is reduced to one of three outcomes: a body, a caught
    exception, or an uncaught exception.
  - Whether `new HttpGet(url)` accepts the update URL as a URI is a parameter
    of the model.
  - `ScheduledRuns` gives the number of runs the fixed-rate schedule makes.

Two things the code does on purpose or by accident shape the contracts:

- `getField` discards the answer of its retry. When the first read is null
  or blank, the next reads are consumed until a non-blank line, but the
  first read is what the prompt returns.
  - `Prompt.GetField` models this as written.
  - `Prompt.BlankAnswerLosesNextLine` shows how `getIntegerField` then loses
    a line.
  - `Prompt.NullReadIsReturned` and `Client.NullHostFailsStartup` show a null
    host ending startup.
- The address read from the IP service goes into the update URL as it was
  read, with no trimming and no checks (`Client.UpdateCarriesIpVerbatim`).
  A refresh rate read from `namecheap.config` is not checked for being
  positive. Only `scheduleAtFixedRate` rejects it, by throwing before any
  run (`Client.StartupDecidesFirstRun`).

## Model

| member | source | states |
|---|---|---|
| Config.FirstNull | src/main/java/namecheap/Client.java:161-172 | None exactly when no argument is null. Otherwise it is a null argument, and every argument checked before it is non-null. |
| Config.NamecheapConfig.constructor | src/main/java/namecheap/Client.java:173-176 | Once every check has passed, the getters return the four arguments. |
| Config.Constructed | src/main/java/namecheap/Client.java:159-177 | The constructor's outcome as a value: the exception for the first null argument, or the four arguments. |
| Config.NamecheapConfig.Create | src/main/java/namecheap/Client.java:159-177 | Fails exactly when an argument is null, with the message of the first null one in checking order. Otherwise it yields a new object whose getters return the arguments. Its outcome agrees with `Constructed`. |
| Config.NamecheapConfig.GetHost | src/main/java/namecheap/Client.java:183-185 | Returns the host field, which may be null. |
| Config.NamecheapConfig.GetDomain | src/main/java/namecheap/Client.java:191-193 | Returns the domain field, which may be null. |
| Config.NamecheapConfig.GetPassword | src/main/java/namecheap/Client.java:199-201 | Returns the password field, which may be null. |
| Config.NamecheapConfig.GetRefreshRate | src/main/java/namecheap/Client.java:207-209 | Returns the refresh rate field, which may be null. |
| Config.NamecheapConfig.SetHost | src/main/java/namecheap/Client.java:179-181 | The host becomes the given value (null allowed). The other three fields are unchanged. |
| Config.NamecheapConfig.SetDomain | src/main/java/namecheap/Client.java:187-189 | The domain becomes the given value. The other three fields are unchanged. |
| Config.NamecheapConfig.SetPassword | src/main/java/namecheap/Client.java:195-197 | The password becomes the given value. The other three fields are unchanged. |
| Config.NamecheapConfig.SetRefreshRate | src/main/java/namecheap/Client.java:203-205 | The refresh rate becomes the given value. The other three fields are unchanged. |
| UpdateUrl.SetIpAddressUrl | src/main/java/namecheap/Client.java:142-149 | The endpoint, the host, `&domain=`, the domain, `&password=`, the password, `&ip=` and the IP, in that order. |
| UpdateUrl.AppendedText | src/main/java/namecheap/Client.java:143-147 | What `StringBuilder.append` writes for a string: the string, or `null` for null. |
| UpdateUrl.BuildSetIpAddressUrl | src/main/java/namecheap/Client.java:140-151 | The appended builder equals the update URL of the configuration's current getter values, with null written as `null`. |
| UpdateUrl.UrlShape | src/main/java/namecheap/Client.java:140-151 | Every update URL starts with the Namecheap endpoint and ends with the IP. Its length is the length of the literals plus the lengths of the four values. |
| UpdateUrl.FieldsAtTheirPositions | src/main/java/namecheap/Client.java:141-149 | Each of the four values, and each parameter key, sits at the offset that the values before it determine. |
| UpdateUrl.ParseBuiltUrl | src/main/java/namecheap/Client.java:140-151 | When host, domain and password contain no `&`, parsing the built URL gives back exactly the four values. |
| UpdateUrl.UnencodedValuesCollide | src/main/java/namecheap/Client.java:143-145 | Values are not encoded. A host that contains `&domain=` yields the same URL as a different host and domain. |
| Prompt.TrimStart | src/main/java/namecheap/Client.java:129 | The result is a suffix of the line. The characters dropped are all at most U+0020, and the result starts with a character above U+0020. |
| Prompt.TrimEnd | src/main/java/namecheap/Client.java:129 | The result is a prefix of the line. The characters dropped are all at most U+0020, and the result ends with a character above U+0020. |
| Prompt.BlankIffTrimmedEmpty | src/main/java/namecheap/Client.java:129 | A trimmed line is empty exactly when every character is at most U+0020. |
| Prompt.GetField | src/main/java/namecheap/Client.java:124-138 | An answer is always the first read, even when that read is null or blank. It consumes at least that read and never more reads than there are. |
| Prompt.FieldConsumesThroughAnswered | src/main/java/namecheap/Client.java:128-133 | The reads consumed are null or blank, up to a last read that is a non-blank line. |
| Prompt.FieldExhaustedIffAllUnanswered | src/main/java/namecheap/Client.java:128-133 | The prompt finds no answer exactly when every remaining read is null or blank. |
| Prompt.FieldEndsAtFirstAnswered | src/main/java/namecheap/Client.java:128-133 | If read n is the first non-blank line, the prompt answers with the first read and consumes n reads. |
| Prompt.ReadField | src/main/java/namecheap/Client.java:124-138 | A loop over the remaining reads gives the same result as the recursive prompt. |
| Prompt.NullReadIsReturned | src/main/java/namecheap/Client.java:128-133 | A null read followed by a non-blank line makes the prompt return null, and both reads are consumed. |
| Prompt.ParsedValue | src/main/java/namecheap/Client.java:111-116 | The parsed number, or 0 when `Integer.parseInt` throws, including for null. |
| Prompt.GetIntegerField | src/main/java/namecheap/Client.java:109-122 | An answer is always greater than zero and consumes between one line and all of them. |
| Prompt.ReadIntegerField | src/main/java/namecheap/Client.java:109-122 | A loop of field reads gives the same result as the recursive integer prompt. |
| Prompt.IntegerFieldIsFirstPositiveAnswer | src/main/java/namecheap/Client.java:109-122 | The result is the first successive answer that parses to a positive number. It is exhausted exactly when no answer does. |
| Prompt.BlankAnswerLosesNextLine | src/main/java/namecheap/Client.java:129-133 | For the input "", "42", "7", the number is 7. The dropped retry has consumed "42". |
| Client.ManualEntry | src/main/java/namecheap/Client.java:49-61 | When entry succeeds, the configuration has no null field and a positive refresh rate. No more reads are consumed than there are. |
| Client.ManualEntryTakesSuccessiveAnswers | src/main/java/namecheap/Client.java:52-59 | Host, domain and password are the first three successive `getField` answers. The refresh rate is the first later answer that parses to a positive number. Entry ends exactly when such answers exist, and its outcome is the constructor's on those four values. |
| Client.NullHostFailsStartup | src/main/java/namecheap/Client.java:52-59 | A null read and then "www" at the host prompt give a null host. The constructor's exception for the host ends startup. |
| Client.StartupSettings | src/main/java/namecheap/Client.java:38-65 | The client never runs with a null field. A complete file configuration is used as it is, without reading the console. A missing file, or one the constructor rejects, leads to manual entry. A configuration entered at the console has a positive refresh rate. |
| Client.RunIteration | src/main/java/namecheap/Client.java:75-104 | The IP service is always asked first. If that request fails there is no update request, and the run is swallowed or escapes according to the exception. The update request is made exactly when the IP was read and its URL is accepted. It is the configuration's URL for that IP. A rejected URI escapes. The run is acknowledged exactly when the update request returns a body, and the response is that body. A failed update request is swallowed or escapes according to the exception. |
| Client.UpdateCarriesIpVerbatim | src/main/java/namecheap/Client.java:81-89 | The update request starts with the endpoint and ends with the IP service's body exactly as read. |
| Client.UpdateRequestCarriesConfig | src/main/java/namecheap/Client.java:89 | When the values contain no `&`, the update request parses back to the configuration's host, domain, password and the IP as read. |
| Client.ExampleUpdateRequest | src/main/java/namecheap/Client.java:75-104 | With host www, domain example.com, password sekret and IP 203.0.113.7, the run is acknowledged and the update request carries exactly those values. |
| Client.ScheduledRuns | src/main/java/namecheap/Client.java:74-106 | A period that is not positive gives no run. Otherwise the runs continue until the first run whose exception escapes, and none run after it. |
| Client.RunsUntilEscape | src/main/java/namecheap/Client.java:74-106 | The runs stop with the first one whose exception escapes, and every earlier run ended without one. |
| Client.StartupDecidesFirstRun | src/main/java/namecheap/Client.java:38-65 | After a successful startup and given at least one tick, the schedule makes no run exactly when the configuration came from the file and its refresh rate is not positive. |

## Left out

- HTTP execution, stream reading and `IOUtils.toString` are not modelled.
  Each exchange is given as an outcome: a body, a caught exception or an
  uncaught exception.
- Whether the URI is valid is a parameter of the model. `new HttpGet`'s
  URI grammar is not modelled.
- Scheduling time is not modelled: the start at time 0, the fixed-rate
  period in seconds and overrun behaviour. `ScheduledRuns` counts runs only.
  The executor thread and its concurrency are left out as well.
- Jackson's reading of `namecheap.config` is not modelled. Its result is a
  parameter: the four properties, each possibly null, or nothing when the
  file cannot be read or parsed. A constructor exception surfaces as a
  mapping error, which the client catches.
- `Integer.parseInt` is a parameter from strings to optional `int32` values.
- Logging, `System.out` prompts, messages and `printStackTrace` are left
  out. Printing produces no state the model needs.
- An `IOException` from `readLine` makes `getField` throw an
  `IllegalStateException`. The model has no failing input stream, so this
  path is left out.
- `getField` creates a new `BufferedReader` on `System.in` for every prompt.
  That reader may buffer lines that later prompts never see. The model has
  each prompt continue at the next unread read.
- At the end of the stream, the Java prompts recurse without bound until the
  stack overflows. The model returns `Exhausted` instead.
- The check at lines 63-65 throws when there is no configuration after
  manual entry. It cannot fire: manual entry either builds a configuration,
  throws from the constructor (a `Failure` in the model), or does not
  return. It is not modelled.
- The `DefaultHttpClient` created by each run is never closed. Resources
  are not modelled.
- `Config.NamecheapConfig.Create`: the failure carries the field whose
  argument was null, and the message is derived from that field. The Java
  exception object itself is not modelled.
