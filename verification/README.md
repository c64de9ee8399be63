# python-scripts, modelled in Dafny

This project models the deterministic core of six small command-line
utilities. Each script is mostly calls into libraries: `requests`,
`cryptography`, `subprocess`, `bcrypt` and the file system. The model keeps the
decisions and transformations the scripts make between those calls. Each
library call becomes an input or an opaque value.

- **devto-publish.py** (`DevtoPublish`) splits a Markdown post on its first
  two `---` delimiters. It reads `title`, `description`, `date` and a bracketed
  `tags` list from the front matter using line-anchored regular expressions,
  builds the article payload, and judges the API's reply.
- **certificate-generator.py** (`CertificateGenerator`) turns the algorithm
  and key length into a key request. It assembles a self-signed certificate:
  five subject attributes, issuer equal to subject, a validity window from two
  clock reads, CA Basic Constraints, and SHA-256. It then writes
  `certificate.key` and `certificate.crt` into the output directory. A
  window whose end precedes its start is refused by the certificate builder,
  and nothing is written. So are an RSA key below 1024 bits, a country code
  that is not two UTF-8 bytes, and a common name outside 1 to 64 bytes, which
  the `cryptography` library refuses.
- **docker-install.py** (`DockerInstall`) refuses to run as root and checks
  the distribution and version against its support table. It then runs the
  per-distribution command plan as a fold that stops at the first failing
  command.
- **cloudflare-dns-update.py** (`CloudflareDnsUpdate`) resolves the record
  value, checks the lookup reply, and sends a PATCH only when the record's
  content differs.
- **password-generator.py** (`PasswordGenerator`) builds the alphabet and
  assembles the password from a sequence of drawn indices. It then checks the
  bcrypt round trip.
- **copy-scripts.py** (`CopyScripts`) selects the `.py` regular files of the
  working directory and copies each one to `docs/<stem>`, converting line
  endings as text mode does. A target that is a directory (`docs/`,
  `docs/.`, `docs/..` or an existing subdirectory) stops the loop, and the
  copies already written stay in `docs`.

Shared modules model the parts of Python the scripts lean on:
- `Text`: `str.isspace`, `strip`, `find`, `split` on one character,
  `startswith`/`endswith`, and ASCII `lower`/`upper`.
- `PosixPath`: `os.path.join` and `os.path.expanduser`.
- `Http`: the status guard `300 >= status < 200`. The dev.to and Cloudflare
  scripts both use it.
- `Wrappers`: `Option` and `Result`.

The status guard is a Python chained comparison. It means
`300 >= status and status < 200`, so it rejects only statuses below 200.
Redirects, client errors and server errors all pass it. The model keeps the
guard as written, and every property of the two API scripts is stated with
this behaviour.

The regular expression `^key:\s*(.+)$` under `re.MULTILINE` is modelled as
Python's engine runs it, with two consequences:
- `\s*` may cross line breaks.
- When the whitespace after `key:` runs to the end of the text, backtracking
  leaves one whitespace character as the capture, which strips to "".

`^tags:\s*\[(.+?)\]` is modelled with its lazy group. Only the `\s*` before
`[` may cross a line break. The group stays on one line, and it ends at the
first `]` on that line that follows at least one character.

## Model

| member | source | states |
|---|---|---|
| Http.RejectsStatus | devto-publish.py:36-37 | the guard fails a reply exactly when its status is below 200, so no status from 300 to 599 is rejected |
| Text.Strip | devto-publish.py:94-95 | the result has no whitespace at either end and is the slice of the input after its leading whitespace run, with only whitespace after it |
| Text.StripUnique | devto-publish.py:94-95 | any edge-free core surrounded only by whitespace is what `strip()` returns |
| Text.StripIdempotent | devto-publish.py:116 | stripping an already stripped value changes nothing |
| Text.LeadingSpace | devto-publish.py:94 | the counted prefix is all whitespace and the next character is not |
| Text.TrailingSpace | devto-publish.py:95 | the counted suffix is all whitespace and the character before it is not |
| Text.Find | devto-publish.py:89 | the position found holds the pattern and no earlier position at or after the start does; None means no position does |
| Text.SplitOn | devto-publish.py:133 | `split(",")` gives one more piece than there are commas, and no piece contains a comma |
| Text.JoinSplit | devto-publish.py:133 | joining the pieces with the separator gives back the split text |
| Text.SplitJoin | devto-publish.py:133 | splitting a join of separator-free pieces gives back the pieces |
| Text.Lower | docker-install.py:47 | the result has the input's length and each character is lower-cased |
| Text.Upper | certificate-generator.py:122 | the result has the input's length and each character is upper-cased |
| Text.UpperIdempotent | certificate-generator.py:122 | upper-casing twice is upper-casing once, so an upper-cased algorithm name chooses as the raw one does |
| PosixPath.Join | certificate-generator.py:167-168 | an absolute name replaces the directory; otherwise the result starts with the directory and ends with the name, with one '/' between them exactly when the directory is non-empty and does not end in '/' |
| PosixPath.ExpandUser | certificate-generator.py:167-168 | a path without a leading `~` is unchanged; `~` and `~/rest` use the home directory without trailing slashes; `~name` and `~name/rest` use that user's home without trailing slashes followed by the rest, or are left alone when the user is unknown |
| PosixPath.RightStripSlashes | certificate-generator.py:167 | the result is a prefix of the input, does not end in '/', and only slashes were removed |
| DevtoPublish.SplitPost | devto-publish.py:89-91 | three parts exist exactly when the text holds two non-overlapping delimiters; the parts are cut at the first two found scanning left to right |
| DevtoPublish.FieldGroupAt | devto-publish.py:114 | a capture for the line at `p` is the longest `(.+)` after `key:` and `\s*` that ends at a line end; None means no split of that line matches |
| DevtoPublish.TagsGroupAt | devto-publish.py:129 | a capture for the line at `p` is the shortest `(.+?)` that ends just before a `]`, after `tags:`, whitespace and `[`; None means none exists |
| DevtoPublish.SearchLines | devto-publish.py:114 | the line returned is the first line start at which the attempt matches |
| DevtoPublish.FieldValue | devto-publish.py:114-126 | None exactly when no line start matches `^key:\s*(.+)$`; otherwise the stripped capture at the first line that matches |
| DevtoPublish.TagsValue | devto-publish.py:108 | empty exactly when no line matches the tags pattern; otherwise there is one tag per comma plus one, each the stripped piece of the first match, and none is dropped |
| DevtoPublish.StripAll | devto-publish.py:133 | each tag is its piece stripped, and the count is kept |
| DevtoPublish.PublishFlag | devto-publish.py:98-101 | the flag is "true" or "false", and "true" exactly when publishing |
| DevtoPublish.ParsePost | devto-publish.py:89-133 | the error "Invalid post format" occurs exactly without two delimiters; otherwise the content is the stripped rest and title, description, date and tags come from the front matter `SplitPost` cuts out, stripped |
| DevtoPublish.ArticleOf | devto-publish.py:149-156 | the payload carries title, content, publish string and tags only |
| DevtoPublish.PayloadIgnoresDescriptionAndDate | devto-publish.py:149-156 | two posts that differ only in description and date give the same payload |
| DevtoPublish.Publish | devto-publish.py:148-181 | a missing file exits with "File not found" and sends nothing; an unparsable post exits with the format message and sends nothing; otherwise exactly one request goes to the articles URL with the API key and the payload of the parsed post; success needs a status of 200 or more and a non-empty path, and announces the site URL plus that path; a low status, an unreachable server or non-JSON body, a missing path and an empty path each exit with their own message |
| DevtoPublish.FirstTwoDelimitersUnique | devto-publish.py:89 | the first two delimiters of a text are determined by it |
| DevtoPublish.ContentKeepsDelimiters | devto-publish.py:89-95 | `---`, front matter, `---`, body parses back to that front matter and the stripped body, even when the body holds more delimiters |
| DevtoPublish.FieldNeedsKeyAtLineStart | devto-publish.py:114-126 | with no line starting with `key:`, the field stays None |
| DevtoPublish.SubtitleIsNotTitle | devto-publish.py:114-116 | a `subtitle:` line does not give a title |
| DevtoPublish.FieldFromLine | devto-publish.py:114-116 | on the first matching line, `key:`, whitespace, then a one-line value starting with a non-space character yields that value, stripped |
| DevtoPublish.FieldLineIsCandidate | devto-publish.py:114 | a line `key:`, whitespace, then a one-line value satisfies the field pattern at its start |
| DevtoPublish.FieldGroupOfLine | devto-publish.py:114 | on such a line whose value starts with a non-space character, the capture is that value |
| DevtoPublish.FieldValueOfFirstLine | devto-publish.py:114-116 | the field is the stripped capture at the first line where the pattern matches |
| DevtoPublish.SkipSpace | devto-publish.py:114-129 | the greedy `\s*` stops at the first non-whitespace character at or after the start, or at the end |
| DevtoPublish.LineEnd | devto-publish.py:114 | the greedy `.+` stops at the first line break at or after the start, or at the end |
| DevtoPublish.LastNonNewline | devto-publish.py:114 | the position found is the last one in the range not holding a line break; None means every position holds one |
| DevtoPublish.TagsFromLine | devto-publish.py:129-133 | a first matching line `tags:`, whitespace, `[g]` with `g` non-empty and free of `]` gives the stripped comma-separated pieces of `g` |
| DevtoPublish.TagsGroupOfLine | devto-publish.py:129 | the tags capture on such a line is `g` |
| DevtoPublish.TagsLineIsCandidate | devto-publish.py:129 | such a line satisfies the tags pattern, ending at the `]` after `g` |
| DevtoPublish.TagsValueOfFirstLine | devto-publish.py:129-133 | the tags come from the first line where the pattern matches |
| DevtoPublish.SearchFindsFirst | devto-publish.py:114-129 | a MULTILINE search returns the first line start where the pattern matches, with its capture |
| CertificateGenerator.ChooseKey | certificate-generator.py:122-134 | the dispatch passes RSA in any case on to the key generator with every admitted length and exponent 65537; ECDSA takes 256 or 384 and picks the curve of that size, else fails with the ECDSA length message; any other name fails with the algorithm message |
| CertificateGenerator.ChooseKeyIgnoresCase | certificate-generator.py:122 | the choice of key depends on the algorithm name only through its upper-cased form |
| CertificateGenerator.Utf8Length | certificate-generator.py:139-143 | the UTF-8 byte count of a string lies between one and four bytes per character, and is its length when every character is ASCII |
| CertificateGenerator.Utf8LengthAppend | certificate-generator.py:139-143 | the byte count of a concatenation is the sum of the parts' counts |
| CertificateGenerator.FirstRefused | certificate-generator.py:137-145 | the index returned is the first attribute outside its length bounds, every earlier one being within them; None exactly when all are within them |
| CertificateGenerator.SubjectRefusal | certificate-generator.py:137-145 | the subject is built exactly when the country code is 2 UTF-8 bytes and the common name 1 to 64; a bad country code is reported first, then a bad common name |
| CertificateGenerator.BuildCertificate | certificate-generator.py:137-160 | the builder refuses exactly a subject the library refuses, reporting that attribute, or else a window whose end, the given days after the second clock read, precedes the start at the first read; otherwise the subject has five attributes C, ST, L, O, CN holding the given fields, the issuer equals the subject, the serial and public key are the ones given, the window runs from the first read to the end, CA Basic Constraints is critical with no path length, and the digest is SHA-256 |
| CertificateGenerator.OutputDir | certificate-generator.py:164-168 | "." means the working directory; a path without a leading `~` is kept; `~/rest` is the home directory without trailing slashes followed by the rest |
| CertificateGenerator.Issue | certificate-generator.py:122-182 | the script fails exactly when the key choice fails, with its message; or RSA is asked for below 1024 bits, which the key generator refuses; or the subject is refused, naming the attribute; or the window ends before it starts; failures are reported in that order. Otherwise it writes the PEM key to `certificate.key`, then the PEM certificate the builder made for that key to `certificate.crt`, both joined onto the expanded output directory |
| CertificateGenerator.ValidityWindow | certificate-generator.py:155-158 | with a key the generator makes, an accepted subject, a clock that does not run backwards and non-negative days, a certificate is written and its window is at least the requested days long |
| CertificateGenerator.NegativeValidityRejected | certificate-generator.py:155-158 | with a key the generator makes and an accepted subject, negative days with clock reads less than a day apart write nothing and fail because the end precedes the start |
| CertificateGenerator.OutputFilesDistinct | certificate-generator.py:167-168 | the key and certificate paths differ |
| CertificateGenerator.DotIsWorkingDirectory | certificate-generator.py:164-168 | the output path "." writes both files into the working directory |
| CertificateGenerator.TildeIsHome | certificate-generator.py:164-168 | with a key the generator makes, an accepted subject and a valid window, an output path `~/rest` writes both files under the home directory without trailing slashes followed by the rest |
| CertificateGenerator.RsaTakesAnyAdmittedLength | certificate-generator.py:122-128 | "rsa" with 256 bits asks for a 256-bit RSA key; "Ecdsa" with 2048 and "DSA" fail with their messages |
| CertificateGenerator.ShortRsaRefused | certificate-generator.py:122-125 | RSA at 256 or 384 bits passes the dispatch, but the key generator refuses it and nothing is written |
| CertificateGenerator.CountryCodeIsTwoBytes | certificate-generator.py:56-145 | the default subject is accepted; a one-character country code of two UTF-8 bytes is accepted; "DEU" is refused as a country code; an empty common name is refused |
| DockerInstall.CheckUser | docker-install.py:33-36 | an effective uid of 0, and only that, is refused with the root message |
| DockerInstall.Message | docker-install.py:29-64 | each refusal exits with its own message: the root message, exactly "Unsupported OS: " followed by the id, or exactly "Unsupported <id> version: " followed by the version; a failed command's message is the library's |
| DockerInstall.CheckSupport | docker-install.py:59-64 | passes exactly when the id is in the table and its version list is empty or holds a prefix of the version; an unknown id fails as an unsupported OS, a known id as an unsupported version |
| DockerInstall.RunChecked | docker-install.py:66-231 | with every status zero the whole plan runs; otherwise the run ends with the first failing command and nothing after it runs |
| DockerInstall.InstallDocker | docker-install.py:44-231 | root fails before anything runs; an unsupported system runs nothing and fails with the support check's refusal; a failing command ends the run right after the first command with a non-zero status and reports it; the script succeeds exactly when not root, supported, and every command exits with 0, having run the full plan |
| DockerInstall.VersionIsPrefixMatch | docker-install.py:50-64 | "24.04.1" passes for ubuntu and "120" for debian; "22.04" fails for ubuntu; "arch" is an unsupported OS |
| DockerInstall.AnyPrefixSingle | docker-install.py:63 | with a single listed prefix, the version passes exactly when it starts with that prefix |
| DockerInstall.SupportedSystems | docker-install.py:50-64 | the supported systems are exactly ubuntu 24.04*, debian 12*, fedora 39*, rhel 9* and rocky 9* |
| DockerInstall.AptPlanShape | docker-install.py:46-120 | on ubuntu and debian every package-manager command is `sudo apt-get`, and the repository line echoed into the sources list is built from the lower-cased id and codename |
| DockerInstall.AptPlanUsesAptGet | docker-install.py:66-120 | the same for an id and codename already lower-cased |
| DockerInstall.AptRepoLineNames | docker-install.py:96-105 | the repository line ends with the id, the codename and "stable" |
| DockerInstall.SuccessEndsWithDockerGroup | docker-install.py:226-228 | a run with no failure ends with `usermod -aG docker <user>` |
| DockerInstall.ServiceEnabledOnlyOffApt | docker-install.py:150-223 | fedora, rhel and rocky enable the service just before the group change; ubuntu and debian never enable it |
| CloudflareDnsUpdate.ResolveValue | cloudflare-dns-update.py:50-54 | a non-empty value is kept; only "" is replaced by the stripped address lookup |
| CloudflareDnsUpdate.RecordType | cloudflare-dns-update.py:96-105 | "A" and "CNAME" are accepted in any case and canonicalised; anything else is refused |
| CloudflareDnsUpdate.CheckReply | cloudflare-dns-update.py:120-131 | a reply passes exactly when it arrived with a status of 200 or more, a JSON body and success true; an unreachable API or a non-JSON body, a low status, success false and a missing "success" key each fail with their own message |
| CloudflareDnsUpdate.AcceptLookup | cloudflare-dns-update.py:120-131 | the lookup is accepted exactly when the reply passes and the count is 1 with a record listed, and then the record is the first one; a count other than 1 fails with "DNS API call failed." |
| CloudflareDnsUpdate.AcceptsReplyFor | cloudflare-dns-update.py:120-131 | the lookup reply a server gives for one record is accepted as that record |
| CloudflareDnsUpdate.UpdateDns | cloudflare-dns-update.py:110-158 | the lookup is always sent; exactly one PATCH, to the record's URL with the new content, follows exactly when the lookup is accepted and the content differs; a refused lookup fails with its error and prints nothing; equal content prints the "already matches" and success messages; differing content prints the mismatch first and fails with the PATCH reply's error when that is refused; success is exactly acceptance plus either equal content or a passing PATCH reply, and ends with "DNS record updated successfully." |
| CloudflareDnsUpdate.UpdateIsIdempotent | cloudflare-dns-update.py:133-158 | after a successful run against a server that applies its requests, the record holds the value and a second run sends only the lookup and succeeds |
| PasswordGenerator.Alphabet | password-generator.py:47-49 | the alphabet has 62 characters, or 94 with symbols, all ASCII |
| PasswordGenerator.PunctuationIsSymbolRuns | password-generator.py:49 | `string.punctuation` is the four runs of ASCII symbols in code order |
| PasswordGenerator.AlphabetMembers | password-generator.py:47-49 | a character is in the alphabet exactly when it is an ASCII letter or digit, or punctuation when symbols are on |
| PasswordGenerator.AlphabetOnlyHolds | password-generator.py:47-49 | every alphabet character is a letter, a digit, or punctuation when symbols are on |
| PasswordGenerator.AlphabetHoldsAll | password-generator.py:47-49 | every letter and digit, and every punctuation character when symbols are on, is in the alphabet |
| PasswordGenerator.BaseHoldsAlnum | password-generator.py:47 | every ASCII letter and digit is in `ascii_letters + digits` |
| PasswordGenerator.PunctuationHoldsAll | password-generator.py:49 | every ASCII punctuation character is in `string.punctuation` |
| PasswordGenerator.AlphabetDistinct | password-generator.py:47-50 | no character appears twice in the alphabet, so each is drawn with the same chance |
| PasswordGenerator.Assemble | password-generator.py:50 | one character per draw, each the alphabet character at the drawn index |
| PasswordGenerator.DrawCount | password-generator.py:50 | `range(length)` draws `length` times when positive and never otherwise |
| PasswordGenerator.EveryPasswordReachable | password-generator.py:50 | every string over the alphabet is produced by some sequence of draws of its length |
| PasswordGenerator.AsciiBytes | password-generator.py:52-53 | UTF-8 encoding of an ASCII password is one byte per character with the same code |
| PasswordGenerator.Generate | password-generator.py:47-58 | the error occurs exactly when checkpw rejects the password against its hash; otherwise the password printed is the one the draws pick from the alphabet, one character per draw, and the hash printed is hashpw of its bytes |
| PasswordGenerator.NoPunctuationWithoutSymbols | password-generator.py:47-50 | without symbols, every password character is a letter or digit and none is punctuation |
| PasswordGenerator.NonPositiveLengthIsEmpty | password-generator.py:50 | a length of zero or less gives the empty password |
| PasswordGenerator.DefaultsGiveThirtyTwoAlnum | password-generator.py:22-39 | with the default options the password is 32 letters and digits |
| CopyScripts.Stem | copy-scripts.py:53 | the stem is three characters shorter, and the stem plus ".py" is the name |
| CopyScripts.StemOfScriptName | copy-scripts.py:53-65 | removing ".py" from a stem plus ".py" gives the stem back |
| CopyScripts.StemInjective | copy-scripts.py:53 | two scripts never share a stem |
| CopyScripts.SelectScripts | copy-scripts.py:50-53 | every stem selected is a regular `.py` file in the directory, and every such entry of the listing is selected |
| CopyScripts.SelectScriptsFilters | copy-scripts.py:50-53 | the selection is the listing's scripts, in listing order, each once |
| CopyScripts.FilterShifts | copy-scripts.py:50-53 | the filter of the tail is the filter of the whole listing from its second entry on |
| CopyScripts.FilterKeeps | copy-scripts.py:52-53 | a script at the head of the listing is selected first |
| CopyScripts.SourcePath | copy-scripts.py:65 | the source read for a relative stem is `./<stem>.py` |
| CopyScripts.TargetPath | copy-scripts.py:66 | the target written for a relative stem is `docs/<stem>`, with no suffix |
| CopyScripts.SourcePathIsListedEntry | copy-scripts.py:50-65 | the file read is the entry the listing named |
| CopyScripts.UniversalNewlines | copy-scripts.py:68-69 | the text read holds no carriage return, is no longer than the file, and equals it when the file has none |
| CopyScripts.NewlinesConvertCrLf | copy-scripts.py:68-69 | a "\r\n" after a carriage-return-free prefix is read as one "\n" |
| CopyScripts.NewlinesConvertCr | copy-scripts.py:68-69 | a lone "\r" after a carriage-return-free prefix is read as "\n" |
| CopyScripts.CopyOf | copy-scripts.py:68-72 | a copy is a regular file, equal to its source when the source has no carriage return, with line endings converted otherwise |
| CopyScripts.WriteKeepsBlocked | copy-scripts.py:71-72 | writing one copy turns no other target into, or out of, a directory |
| CopyScripts.CopyFrom | copy-scripts.py:61-73 | the loop copies stems in order until a target is a directory: an existing subdirectory, or the stems "", "." and ".." whose targets are `docs/`, `docs/.` and `docs/..`; it then fails with that target path and copies nothing further |
| CopyScripts.CopyFromKeys | copy-scripts.py:61-73 | after the loop `docs` holds exactly its earlier entries plus the stems copied |
| CopyScripts.CopyFromKeeps | copy-scripts.py:61-73 | every entry the loop did not write is as it was |
| CopyScripts.CopyFromContents | copy-scripts.py:61-73 | every stem copied holds a copy of its script |
| CopyScripts.CopyScripts | copy-scripts.py:49-73 | the script fails exactly when some script's target is blocked; it stops at the first blocked stem in listing order, failing with its target path, after copying every earlier stem, and `docs` keeps those copies and every entry it did not write; without failure `docs` holds a copy of every script under its stem, gains no other names, and keeps every entry that is not a stem of a script |
| CopyScripts.ScriptsAreSelected | copy-scripts.py:50-53 | every script in the directory is selected |
| CopyScripts.CopyIsExactWithoutCarriageReturns | copy-scripts.py:68-72 | a script without carriage returns is copied unchanged |
| CopyScripts.DotStemsStopTheCopy | copy-scripts.py:53-71 | a regular file named ".py", "..py" or "...py" has a stem whose target is a directory, and the copy fails |

## Left out

- The network: `requests` calls and JSON decoding are represented by reply records. The checkip lookup in `value_callback` is an input, and a failure there is not modelled.
- Non-boolean and non-string JSON values are not modelled: "success" is a boolean and "path" a string. So is a reply without `result_info`, where the script raises `KeyError`.
- Key generation, `random_serial_number`, signing and PEM serialisation are opaque. The key pair and serial are inputs.
- CertificateGenerator.ChooseKey: states the dispatch alone, which lets RSA through at 256 and 384 bits. The key generator's refusal of RSA keys below 1024 bits is stated by Issue and ShortRsaRefused.
- CertificateGenerator.SubjectRefusal: follows the length bounds of current `cryptography` releases, which the script does not pin. Command-line values holding lone surrogates, which `encode("utf8")` refuses, cannot be written as Dafny strings and are not modelled.
- CertificateGenerator.BuildCertificate: clock reads are integer microseconds. `datetime` overflowing for huge `validity_days`, and the library refusing dates before 1950 or after 9999, are not modelled. The refusal of a window that ends before it starts is modelled.
- `os.getcwd`, `$HOME` and the password database are inputs to the output-path computation.
- DockerInstall.Message: the message for a failed command is the text of Python's `CalledProcessError`, which is not modelled. A missing executable raises `FileNotFoundError`, which is not modelled either.
- `distro`, `getpass` and `os.geteuid` are inputs, and the exit status of each planned command is an input sequence.
- Text.Lower: maps only ASCII letters, because distribution ids and codenames are ASCII. Python's `str.lower` also maps other scripts.
- Text.Upper: maps only ASCII letters. This is harmless where it is used: typer's case-insensitive choice for `--algorithm` passes only "RSA" or "ECDSA" to the script, so no non-ASCII name reaches `upper()`.
- CloudflareDnsUpdate.RecordType: compares with ASCII case folding. No non-ASCII character folds to a letter of "A" or "CNAME".
- `secrets.choice` draws are an input sequence of indices, and `gensalt`, `hashpw` and `checkpw` are an oracle. A bcrypt release that refuses passwords longer than 72 bytes is not modelled.
- File I/O is not modelled beyond the directory maps: reading the post, writing the PEM files, and the `docs` directory being missing or unwritable. Decoding errors and the `isfile` check following symbolic links are not modelled either.
- `os.listdir` order is an input listing.
- Typer option parsing, environment variables, coloured output and the rich progress display are not modelled. Only the values they produce are, along with the messages the scripts exit with. The progress lines and the closing "Files successfully created" line of copy-scripts.py, and the summary lines certificate-generator.py prints, are not modelled.
- brew-upgrade.py, git-email.py, gitemail.py and direnv-init.py are not modelled. Each is a single subprocess call or a fixed file write with no logic to state.
