# acme.sh signing backend of Serles, in Dafny

`serles/backends/acmesh.py` is the Serles backend that passes a certificate
signing request to an installed `acme.sh`. `acme.sh` runs in DNS-01 mode and
returns the issued chain. This project models the decisions the backend makes
around that process, as immutable datatypes and pure functions. It then proves
what those decisions guarantee.

- **Configuration** (`AcmeSHBackend.__init__`): checks the `[acmesh]` section
  of config.ini in a fixed order and fills in defaults. It yields a `Backend`
  or the error of the first check that fails.
- **PluginConfig** (`_parse_dns_plugin_config`): turns the multi-line
  `dns_plugin_config` block into the environment of `acme.sh`:
  - The whole block is stripped and split into lines.
  - Each line is stripped and split at its first `=`.
  - Each side is stripped.
  - A repeated key takes the value of its later line.
- **Signing** (`sign`):
  - The CSR is staged at `<tmpdir>/csr.pem`.
  - The chain goes to `<home>/certificates/<first SAN>.pem`.
  - The `acme.sh` command line has a fixed order.
  - Exit codes 0 and 2 mean "read the chain file". Any other code yields
    `(None, "acme.sh exited with error <code> and output:\n<output>")`.
- **Text** and **Decimal** model the Python built-ins the backend relies on:
  `str.strip`, `str.partition`, `str.splitlines` and `str(int)`. Lemmas pin
  each one down:
  - any split into whitespace, a stripped middle and whitespace strips to
    that middle;
  - the partition is at the first separator;
  - the lines join back to the text;
  - the decimal text of an integer parses back to it.

These parts are passed in as inputs rather than modelled:
- the filesystem checks `os.access(path, os.X_OK)` and `os.path.exists`;
- the scratch directory that `tempfile` hands out;
- the `acme.sh` process itself, as a function from an invocation to
  `(returncode, output)`;
- the content of the chain file once `acme.sh` has finished.

Where the comments of the source and its code disagree, the model follows the
code:
- The comment at acmesh.py:106 says that a malformed line throws. Line 108
  only constructs a `RuntimeError` and never raises it. Parsing therefore never
  fails. A line without `=` becomes the entry `stripped line -> ""`. An
  interior blank line becomes `"" -> ""`.
- `subprocess.run(..., env=env)` replaces the inherited environment instead of
  extending it. The invocation's environment is the parsed map and nothing
  else.

Settings are strings, as configparser yields them from config.ini. So
`debug_mode` follows Python truthiness: any non-empty value turns debug mode
on, including `false`. When the setting is absent, debug mode is off. Like
configparser's section `get`, a lookup in `[acmesh]` falls back to the
`[DEFAULT]` section for a key that `[acmesh]` does not set.

## Model

| member | source | states |
|---|---|---|
| `Configuration.Construct` | serles/backends/acmesh.py:35-57 | each error is raised exactly when every earlier check passes and its own check fails (section, binary executable, home exists, dns_plugin, dns_plugin_config, in that order); the path errors carry the resolved path; a constructed backend has an executable binary, an existing home and non-empty plugin settings |
| `Configuration.ConstructSucceedsIff` | serles/backends/acmesh.py:37-54 | construction succeeds if and only if the section is present, the binary is executable, the home path exists and both DNS plugin settings are non-empty |
| `Configuration.Settings` | serles/backends/acmesh.py:40-57 | `config["acmesh"]` offers every key of `[acmesh]` with its own value, and every other key of `[DEFAULT]` with the value there |
| `Configuration.ConstructDefaults` | serles/backends/acmesh.py:40-57 | each field is the value found for its key, or else `/root/.acme.sh/acme.sh`, `/root/.acme.sh`, 300 and debug off when the key is absent; debug mode is on exactly when `debug_mode` is found and non-empty |
| `Configuration.DefaultSectionInherited` | serles/backends/acmesh.py:48-57 | a non-empty `debug_mode` or `dns_plugin` in `[DEFAULT]` turns debug mode on or passes the plugin check when `[acmesh]` does not set it |
| `Configuration.ConstructReadsOnlyItsSection` | serles/backends/acmesh.py:37-57 | sections other than `[acmesh]` and `[DEFAULT]` never change the outcome |
| `Configuration.Message` | serles/backends/acmesh.py:38-54 | the messages for a non-executable binary and for a missing home path contain that path |
| `Text.Trim` | serles/backends/acmesh.py:104 | the stripped text neither starts nor ends with whitespace |
| `Text.TrimMargins` | serles/backends/acmesh.py:104 | the stripped text is a slice of the input whose two margins are whitespace only |
| `Text.TrimUnique` | serles/backends/acmesh.py:104 | any split of a string into whitespace, a middle with non-space ends, and whitespace determines the stripped result |
| `Text.TrimPadding` | serles/backends/acmesh.py:103 | whitespace added around a string does not change what stripping returns |
| `Text.TrimEmpty` | serles/backends/acmesh.py:103-104 | a string strips to the empty string exactly when it is all whitespace |
| `Text.Partition` | serles/backends/acmesh.py:110 | the part before holds no separator; the separator is found exactly when it occurs; when found, before + separator + after is the input; otherwise the whole input is the part before |
| `Text.PartitionAtFirst` | serles/backends/acmesh.py:110 | the split is at the first separator, and later separators stay in the part after |
| `Text.SplitLines` | serles/backends/acmesh.py:103 | no line contains a newline, and there are no lines exactly when the text is empty |
| `Text.SplitLinesJoin` | serles/backends/acmesh.py:103 | joining the lines with newlines gives back the text exactly when it does not end in a newline, and the text minus its final newline when it does, so a final newline never starts an empty last line |
| `Text.JoinLinesSplit` | serles/backends/acmesh.py:103 | splitting joined lines recovers them when no line contains a newline and the last line is non-empty |
| `Decimal.IntToString` | serles/backends/acmesh.py:95 | the decimal text of the exit code is non-empty, has a leading `-` exactly for negative codes, has no leading zero for any code other than 0, is `0` for 0, and contains no space |
| `Decimal.IntToStringRoundTrip` | serles/backends/acmesh.py:95 | the decimal text of every exit code parses back to that code |
| `Decimal.ParseIntExact` | serles/backends/acmesh.py:95 | a text parses as a number only if it is exactly `str` of that number: no leading zeros, no `-0` |
| `PluginConfig.ParseLine` | serles/backends/acmesh.py:104-112 | the key never contains `=`, key and value are stripped, and a blank line or one without `=` gives the stripped line as key with an empty value |
| `PluginConfig.SplitAtFirstEquals` | serles/backends/acmesh.py:110-112 | a line is split at its first `=`: the key is the stripped text before it and the value is the stripped text after it, so a value may contain `=` |
| `PluginConfig.Lines` | serles/backends/acmesh.py:103 | the lines are those of the stripped block: joined with newlines they give the stripped block back; no line contains a newline, and a block has no lines exactly when it is all whitespace |
| `PluginConfig.ParseDnsPluginConfig` | serles/backends/acmesh.py:100-116 | the environment has a key exactly when some line of the block carries it, and its value is the one on the last line carrying that key |
| `PluginConfig.CollectKeys` | serles/backends/acmesh.py:103-114 | the loop ends with the earlier keys plus the key of every line |
| `PluginConfig.CollectLastWins` | serles/backends/acmesh.py:103-114 | a key ends with the value of the last line carrying it, so line order matters |
| `PluginConfig.CollectKeepsOthers` | serles/backends/acmesh.py:103-114 | a key that no line carries keeps its value |
| `PluginConfig.MalformedLineKept` | serles/backends/acmesh.py:106-114 | a line the source calls malformed is not dropped: unless a later line reuses the key, its stripped text is a key with value `""` |
| `PluginConfig.BlankLineGivesEmptyEntry` | serles/backends/acmesh.py:103-114 | an interior blank line yields the entry `"" -> ""` unless a later line has an empty key |
| `PluginConfig.OuterBlankLinesIgnored` | serles/backends/acmesh.py:103 | whitespace and blank lines before or after the block do not change the environment |
| `Signing.ChainPath` | serles/backends/acmesh.py:67-68 | the chain file lies in `<home>/certificates/`, under the name `<san>.pem` |
| `Signing.ChainPathInjective` | serles/backends/acmesh.py:68 | two calls with the same home share a chain file if and only if their first SANs are equal |
| `Signing.BuildArgv` | serles/backends/acmesh.py:70-81 | the command line is the binary, `--sign-csr`, `--csr <csr>`, `--dns <plugin>`, `--fullchain-file <path>`, `--home <home>` and `--dnssleep <n>`; `--debug` is appended last in debug mode, and nothing else is appended |
| `Signing.ArgvRoundTrip` | serles/backends/acmesh.py:70-81 | every value on the command line, and the debug flag, can be read back from it |
| `Signing.SignArguments` | serles/backends/acmesh.py:63-78 | the CSR file is `<tmpdir>/csr.pem`, the chain file is keyed by the first SAN, and the other values come from the backend |
| `Signing.SignInvocation` | serles/backends/acmesh.py:63-86 | `acme.sh` receives the command line of the call's arguments, the parsed plugin block as its environment, and the CSR staged in the scratch directory |
| `Signing.ErrorMessageRoundTrip` | serles/backends/acmesh.py:95 | the error text carries the exit code and the complete output, and both can be read back from it |
| `Signing.ErrorMessageExact` | serles/backends/acmesh.py:95 | a text that reads back as (code, output) is exactly `acme.sh exited with error <str(code)> and output:\n<output>`, so reading back pins the text down |
| `Signing.Classify` | serles/backends/acmesh.py:89-98 | exit codes 0 and 2, and only those, lead to reading the chain file; every other code gives an error that reads back as that code and output, which by `Signing.ErrorMessageExact` is exactly the f-string's text |
| `Signing.Sign` | serles/backends/acmesh.py:60-98 | exactly one of certificate and error is set; the certificate is set exactly on exit code 0 or 2, and is then the content of the chain file of the first SAN; otherwise the error reads back as the code and the output, so by `Signing.ErrorMessageExact` it is exactly the f-string's text |
| `Signing.SignUsesFirstSanOnly` | serles/backends/acmesh.py:60-68 | the result depends only on the first SAN, not on the later SANs, the subject DN or the e-mail address |
| `Signing.FailedRunReported` | serles/backends/acmesh.py:94-95 | exit code 5 with output "DNS record not found" yields the error `acme.sh exited with error 5 and output:\nDNS record not found` |

## Left out

- Process execution: the `subprocess.run` call, its 900-second timeout and the UTF-8 decoding of its output (acmesh.py:86-87). The process is a function from an `Invocation` to `(returncode, output)`. The output is already text.
- Filesystem side effects, because they are I/O:
  - the lifetime and cleanup of the `tempfile.TemporaryDirectory`;
  - writing the CSR file, which appears only as the CSR staged in the invocation;
  - `os.makedirs` of the certificates directory;
  - reading the chain file, which is a `readFile` parameter. A chain file that cannot be opened is not modelled.
- `os.access` and `os.path.exists` are parameters of `Configuration.Construct`, not checks on a real filesystem.
- Concurrent calls sharing `<home>/certificates/<san>.pem` race on that file. Concurrency is outside this model; `Signing.ChainPathInjective` states which calls share the path.
- Configuration.Settings: option names are taken as configparser stores them, already lower-cased. Its `%` interpolation is not modelled: a value such as `%(name)s` is not expanded, and a bare `%` in `dns_plugin_config` does not raise the `InterpolationSyntaxError` that configparser's `get` would raise.
- Text.Trim: strips ASCII whitespace only (tab, newline, vertical tab, form feed, carriage return, the separators 0x1c-0x1f and space). Python's `str.strip` also strips Unicode whitespace.
- Text.SplitLines: ends lines at `'\n'` only. Python's `str.splitlines` also ends lines at `'\r'`, `'\r\n'`, `'\x0b'`, `'\x0c'`, `'\x1c'`-`'\x1e'`, `'\x85'`, `'\u2028'` and `'\u2029'`. A `'\r'` before `'\n'` is still removed when each line is stripped.
- Configuration.ConstructDefaults: the default of `dns_sleep_time` is the string `"300"`. The source uses the integer 300 as the default and puts it into the argument list as it is, while a value read from config.ini is a string. `subprocess.run` raises `TypeError` on an integer in the argument list. So when `dns_sleep_time` is not set, which is the case in the example configuration of the class's docstring, the source's `sign` fails before `acme.sh` runs. The model's `Signing.Sign` instead runs `acme.sh` with `--dnssleep 300` and returns a certificate or an error.
- Signing.Sign: requires a non-empty list of subject alternative names. With an empty list, the source fails with an uncaught `IndexError` at acmesh.py:68, and no result is modelled for that case.
