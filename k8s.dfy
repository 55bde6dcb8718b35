/**
 * Kubeconfig resolution: the rke2 file when it exists, else $KUBECONFIG when set, else
 * $HOME/.kube/config; the file is then handed to the client-config builder. Whether
 * the rke2 file exists, the environment value, the home directory and the builder are
 * inputs.
 */
module K8s {
  import opened Outcomes

  const Rke2ConfigPath := "/etc/rancher/rke2/rke2.yaml"
  const HomeConfigSuffix := "/.kube/config"

  /** The path chosen, in the source's reassignment style. */
  function KubeConfigPath(rke2ConfigExists: bool, kubeconfigEnv: string, home: string): (path: string)
    ensures rke2ConfigExists ==> path == Rke2ConfigPath
    ensures !rke2ConfigExists && kubeconfigEnv != "" ==> path == kubeconfigEnv
    ensures !rke2ConfigExists && kubeconfigEnv == "" ==> path == home + HomeConfigSuffix
    ensures path != ""
  {
    var fromEnv := kubeconfigEnv;
    var afterStat := if rke2ConfigExists then Rke2ConfigPath else fromEnv;
    if afterStat == "" then home + HomeConfigSuffix else afterStat
  }

  /** The rke2 file wins over the environment, and the environment over the home
      directory: the home directory only matters when both others are absent. */
  lemma PathPrecedence(rke2ConfigExists: bool, env1: string, env2: string, home1: string, home2: string)
    ensures rke2ConfigExists ==> KubeConfigPath(true, env1, home1) == KubeConfigPath(true, env2, home2)
    ensures env1 != "" ==> KubeConfigPath(false, env1, home1) == KubeConfigPath(false, env1, home2)
    ensures KubeConfigPath(rke2ConfigExists, env1, home1) != KubeConfigPath(rke2ConfigExists, env1, home2)
        ==> !rke2ConfigExists && env1 == "" && home1 != home2
  {
    if !rke2ConfigExists && env1 == "" && home1 != home2 {
      assert KubeConfigPath(false, "", home1) == home1 + HomeConfigSuffix;
    } else if !rke2ConfigExists && env1 == "" {
      assert home1 == home2;
    }
  }

  /** The builder's config for the chosen path; None stands for the nil config returned
      with the builder's error. */
  function GetKubeConfig<C>(rke2ConfigExists: bool, kubeconfigEnv: string, home: string,
                            build: string -> Option<C>): (c: Option<C>)
    ensures rke2ConfigExists ==> c == build(Rke2ConfigPath)
    ensures !rke2ConfigExists && kubeconfigEnv != "" ==> c == build(kubeconfigEnv)
    ensures !rke2ConfigExists && kubeconfigEnv == "" ==> c == build(home + HomeConfigSuffix)
  {
    build(KubeConfigPath(rke2ConfigExists, kubeconfigEnv, home))
  }

  /** The config the controller client is built from: the one given, or a freshly
      derived one when none was given. */
  function CtrlClientConfig<C>(given: Option<C>, rke2ConfigExists: bool, kubeconfigEnv: string, home: string,
                               build: string -> Option<C>): (c: Option<C>)
    ensures given.Some? ==> c == given
  {
    if given.None? then GetKubeConfig(rke2ConfigExists, kubeconfigEnv, home, build) else given
  }

  /** Without a config the client re-derives one, asking the builder about exactly the
      path resolution picks; a build failure leaves it without a config. */
  lemma CtrlClientRederives<C>(rke2ConfigExists: bool, kubeconfigEnv: string, home: string, build: string -> Option<C>)
    ensures CtrlClientConfig(None, rke2ConfigExists, kubeconfigEnv, home, build)
         == build(KubeConfigPath(rke2ConfigExists, kubeconfigEnv, home))
    ensures build(KubeConfigPath(rke2ConfigExists, kubeconfigEnv, home)).None?
        ==> CtrlClientConfig(None, rke2ConfigExists, kubeconfigEnv, home, build).None?
  {
  }

  /** On an rke2 host the rke2 file is read whatever $KUBECONFIG says. */
  lemma Rke2HostReadsRke2File<C>(kubeconfigEnv: string, home: string, build: string -> Option<C>)
    ensures GetKubeConfig(true, kubeconfigEnv, home, build) == build(Rke2ConfigPath)
  {
  }
}
