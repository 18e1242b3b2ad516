/** `PackageInfo`: where a feature package, its autoload root and the host
    project live, with trailing separators cut off once, at construction. */
module Dto {
  import opened Text

  const Backslash: set<char> := {'\\'}
  const Separators: set<char> := {'/', '\\'}

  datatype PackageInfo = PackageInfo(
    namespace: string,
    projectPath: string,
    autoloadPath: string,
    packagePath: string,
    composerName: string)
  {

    /** What the constructor guarantees: no trailing backslash on the
        namespace, no trailing `/` or `\` on the paths. */
    predicate Normal() {
      && (namespace == [] || namespace[|namespace| - 1] !in Backslash)
      && (projectPath == [] || projectPath[|projectPath| - 1] !in Separators)
      && (autoloadPath == [] || autoloadPath[|autoloadPath| - 1] !in Separators)
      && (packagePath == [] || packagePath[|packagePath| - 1] !in Separators)
    }

    /** The constructor: each argument right-trimmed of its separators, the
        Composer name stored as given. */
    static function Create(namespace: string, projectPath: string, autoloadPath: string,
                           packagePath: string, composerName: string): (p: PackageInfo)
      ensures p.Normal()
      ensures p.namespace <= namespace && p.projectPath <= projectPath
      ensures p.autoloadPath <= autoloadPath && p.packagePath <= packagePath
      ensures forall i :: |p.namespace| <= i < |namespace| ==> namespace[i] == '\\'
      ensures forall i :: |p.projectPath| <= i < |projectPath| ==> projectPath[i] in Separators
      ensures forall i :: |p.autoloadPath| <= i < |autoloadPath| ==> autoloadPath[i] in Separators
      ensures forall i :: |p.packagePath| <= i < |packagePath| ==> packagePath[i] in Separators
      ensures p.composerName == composerName
    {
      PackageInfo(RTrim(namespace, Backslash), RTrim(projectPath, Separators),
                  RTrim(autoloadPath, Separators), RTrim(packagePath, Separators), composerName)
    }
  }

  /** Trimming a string that does not end in the stripped characters
      leaves it alone. */
  lemma RTrimNormal(s: string, strip: set<char>)
    requires s == [] || s[|s| - 1] !in strip
    ensures RTrim(s, strip) == s
  {
  }

  /** Normalisation is idempotent: constructing again from the getters'
      values gives the same package info. */
  lemma CreateIdempotent(p: PackageInfo)
    requires p.Normal()
    ensures PackageInfo.Create(p.namespace, p.projectPath, p.autoloadPath, p.packagePath, p.composerName) == p
  {
    RTrimNormal(p.namespace, Backslash);
    RTrimNormal(p.projectPath, Separators);
    RTrimNormal(p.autoloadPath, Separators);
    RTrimNormal(p.packagePath, Separators);
  }
}
